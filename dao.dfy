/**
 * The local `products` table and its data access object. The table is keyed
 * by the primary key `id`: it holds at most one row per id. `upsert` inserts
 * or replaces the row with the entity's id, `delete` removes the row with the
 * entity's id, the lookup by id yields the row or nothing, and the full
 * listing is ordered by name.
 */
module Dao {
  import opened Wrappers
  import opened Products
  import Collation

  type Table = map<string, ProductEntity>

  /** Every row is stored under its own primary key. */
  ghost predicate Keyed(t: Table)
  {
    forall k :: k in t ==> t[k].id == k
  }

  /** `SELECT * FROM products WHERE id = :id`: the row with that id, or nothing. */
  function Lookup(t: Table, id: string): (r: Option<ProductEntity>)
    requires Keyed(t)
    ensures r.None? <==> (forall k :: k in t ==> t[k].id != id)
    ensures r.Some? ==> r.value in t.Values && r.value.id == id
  {
    if id in t then Some(t[id]) else None
  }

  /** `@Upsert`: the row with the entity's id is inserted, or replaced if present. */
  function TableUpsert(t: Table, e: ProductEntity): (r: Table)
    requires Keyed(t)
    ensures Keyed(r)
    ensures Lookup(r, e.id) == Some(e)
    ensures forall id :: id != e.id ==> Lookup(r, id) == Lookup(t, id)
    ensures r.Keys == t.Keys + {e.id}
  {
    t[e.id := e]
  }

  /** `@Delete`: the row whose primary key is the entity's id is removed, if any. */
  function TableDelete(t: Table, e: ProductEntity): (r: Table)
    requires Keyed(t)
    ensures Keyed(r)
    ensures Lookup(r, e.id) == None
    ensures forall id :: id != e.id ==> Lookup(r, id) == Lookup(t, id)
    ensures r.Keys == t.Keys - {e.id}
  {
    t - {e.id}
  }

  /** Upserting the same entity twice leaves the table as upserting it once. */
  lemma UpsertIdempotent(t: Table, e: ProductEntity)
    requires Keyed(t)
    ensures TableUpsert(TableUpsert(t, e), e) == TableUpsert(t, e)
  {
  }

  /** An upsert of a known id replaces (the row count stays), of a new id inserts (it grows by one). */
  lemma {:induction false} UpsertRowCount(t: Table, e: ProductEntity)
    requires Keyed(t)
    ensures e.id in t ==> |TableUpsert(t, e)| == |t|
    ensures e.id !in t ==> |TableUpsert(t, e)| == |t| + 1
  {
    var r := TableUpsert(t, e);
    assert |r.Keys| == |r| && |t.Keys| == |t|;
    if e.id in t {
      assert r.Keys == t.Keys;
    } else {
      assert r.Keys == t.Keys + {e.id};
    }
  }

  /** Deleting a row that an upsert just wrote leaves the table as deleting it directly. */
  lemma DeleteAfterUpsert(t: Table, e: ProductEntity)
    requires Keyed(t)
    ensures TableDelete(TableUpsert(t, e), e) == TableDelete(t, e)
  {
    assert TableDelete(TableUpsert(t, e), e).Keys == TableDelete(t, e).Keys;
  }

  // ---- The listing: `SELECT * FROM products ORDER BY name ASC` ----

  /**
   * `a` comes before `b` in the listing: by name under the table's collation;
   * rows with equal names, which SQL leaves in no particular order, are
   * placed here by id.
   */
  predicate RowBefore(a: ProductEntity, b: ProductEntity)
  {
    Collation.Less(a.name, b.name) || (a.name == b.name && Collation.Less(a.id, b.id))
  }

  ghost predicate StrictlyOrdered(xs: seq<ProductEntity>)
  {
    forall i, j :: 0 <= i < j < |xs| ==> RowBefore(xs[i], xs[j])
  }

  /** Every row of `xs` is a row of `t`, and every row of `t` is in `xs`. */
  ghost predicate ListsRows(xs: seq<ProductEntity>, t: Table)
  {
    && (forall i :: 0 <= i < |xs| ==> xs[i].id in t && t[xs[i].id] == xs[i])
    && (forall k :: k in t ==> t[k] in xs)
  }

  /** No id appears twice in `xs`. */
  ghost predicate DistinctIds(xs: seq<ProductEntity>)
  {
    forall i, j :: 0 <= i < j < |xs| ==> xs[i].id != xs[j].id
  }

  /** `xs` lists the rows of `t` in the model's listing order, ties by id included. */
  ghost predicate ListsTable(xs: seq<ProductEntity>, t: Table)
  {
    ListsRows(xs, t) && StrictlyOrdered(xs)
  }

  lemma RowBeforeTransitive(a: ProductEntity, b: ProductEntity, c: ProductEntity)
    requires RowBefore(a, b) && RowBefore(b, c)
    ensures RowBefore(a, c)
  {
    if Collation.Less(a.name, b.name) && Collation.Less(b.name, c.name) {
      Collation.LessTransitive(a.name, b.name, c.name);
    } else if a.name == b.name && b.name == c.name {
      Collation.LessTransitive(a.id, b.id, c.id);
    }
  }

  /** Two rows with different ids are always ordered one way or the other. */
  lemma RowBeforeTotal(a: ProductEntity, b: ProductEntity)
    requires a.id != b.id
    ensures RowBefore(a, b) || RowBefore(b, a)
  {
    Collation.LessTotal(a.name, b.name);
    Collation.LessTotal(a.id, b.id);
  }

  lemma RowBeforeIrreflexive(a: ProductEntity)
    ensures !RowBefore(a, a)
  {
    Collation.LessIrreflexive(a.name);
    Collation.LessIrreflexive(a.id);
  }

  /** Places `e` into the ordered listing `xs`, in front of the first row it precedes. */
  function Insert(e: ProductEntity, xs: seq<ProductEntity>): (r: seq<ProductEntity>)
    ensures |r| == |xs| + 1
    ensures multiset(r) == multiset(xs) + multiset{e}
    ensures forall x :: x in r <==> x == e || x in xs
  {
    if xs == [] then [e]
    else if RowBefore(xs[0], e) then
      assert xs == [xs[0]] + xs[1..];
      [xs[0]] + Insert(e, xs[1..])
    else [e] + xs
  }

  lemma {:induction false} InsertOrdered(e: ProductEntity, xs: seq<ProductEntity>)
    requires StrictlyOrdered(xs)
    requires forall i :: 0 <= i < |xs| ==> xs[i].id != e.id
    ensures StrictlyOrdered(Insert(e, xs))
  {
    if xs == [] {
    } else if RowBefore(xs[0], e) {
      InsertOrdered(e, xs[1..]);
      var tail := Insert(e, xs[1..]);
      forall y | y in tail ensures RowBefore(xs[0], y) {
        if y != e {
          var j :| 0 <= j < |xs[1..]| && xs[1..][j] == y;
          assert xs[j + 1] == y;
        }
      }
      var r := [xs[0]] + tail;
      forall i, j | 0 <= i < j < |r| ensures RowBefore(r[i], r[j]) {
        if i == 0 {
          assert r[j] == tail[j - 1] && tail[j - 1] in tail;
        } else {
          assert r[i] == tail[i - 1] && r[j] == tail[j - 1];
        }
      }
    } else {
      RowBeforeTotal(e, xs[0]);
      var r := [e] + xs;
      forall i, j | 0 <= i < j < |r| ensures RowBefore(r[i], r[j]) {
        if i == 0 {
          if j > 1 {
            RowBeforeTransitive(e, xs[0], xs[j - 1]);
          }
        } else {
          assert r[i] == xs[i - 1] && r[j] == xs[j - 1];
        }
      }
    }
  }

  lemma RemoveKeyCount(t: Table, k: string)
    requires k in t
    ensures |t - {k}| == |t| - 1
  {
    assert (t - {k}).Keys == t.Keys - {k};
    assert |t.Keys| == |t| && |(t - {k}).Keys| == |t - {k}|;
  }

  /** Some row key of a non-empty table. */
  ghost function AnyKey(t: Table): (k: string)
    requires t != map[]
    ensures k in t
  {
    var k :| k in t; k
  }

  /**
   * The rows of the table as the listing query returns them: each row exactly
   * once, ordered by name.
   */
  ghost function Listing(t: Table): (r: seq<ProductEntity>)
    requires Keyed(t)
    ensures |r| == |t|
    decreases |t|
  {
    if t == map[] then []
    else
      var k := AnyKey(t);
      RemoveKeyCount(t, k);
      Insert(t[k], Listing(t - {k}))
  }

  lemma {:induction false} ListingListsTable(t: Table)
    requires Keyed(t)
    ensures ListsTable(Listing(t), t)
    decreases |t|
  {
    if t != map[] {
      var k := AnyKey(t);
      var u := t - {k};
      RemoveKeyCount(t, k);
      ListingListsTable(u);
      var rest := Listing(u);
      assert Listing(t) == Insert(t[k], rest);
      forall i | 0 <= i < |rest| ensures rest[i].id != t[k].id {
        assert rest[i].id in u;
      }
      InsertOrdered(t[k], rest);
      var r := Listing(t);
      forall i | 0 <= i < |r| ensures r[i].id in t && t[r[i].id] == r[i] {
        assert r[i] in r;
        if r[i] != t[k] {
          var j :| 0 <= j < |rest| && rest[j] == r[i];
        }
      }
      forall k' | k' in t ensures t[k'] in r {
        if k' != k {
          assert k' in u && u[k'] in rest;
        }
      }
    }
  }

  /** The listing is ascending by name, and no row appears twice. */
  lemma {:induction false} ListingByName(t: Table)
    requires Keyed(t)
    ensures forall i, j :: 0 <= i < j < |Listing(t)| ==> Collation.LessOrEqual(Listing(t)[i].name, Listing(t)[j].name)
    ensures forall i, j :: 0 <= i < j < |Listing(t)| ==> Listing(t)[i].id != Listing(t)[j].id
  {
    ListingListsTable(t);
    var r := Listing(t);
    forall i, j | 0 <= i < j < |r| ensures r[i].id != r[j].id {
      assert RowBefore(r[i], r[j]);
      if r[i].id == r[j].id {
        assert r[i] == r[j];
        RowBeforeIrreflexive(r[i]);
      }
    }
  }

  /** The data access object over the `products` table. */
  class ProductDao {
    var products: Table

    ghost predicate Valid()
      reads this
    {
      Keyed(products)
    }

    constructor ()
      ensures Valid() && products == map[]
    {
      products := map[];
    }

    /** `upsert(product)`. */
    method Upsert(product: ProductEntity)
      requires Valid()
      modifies this
      ensures Valid()
      ensures products == TableUpsert(old(products), product)
    {
      products := products[product.id := product];
    }

    /** `delete(product)`: by primary key; deleting an absent id changes nothing. */
    method Delete(product: ProductEntity)
      requires Valid()
      modifies this
      ensures Valid()
      ensures products == TableDelete(old(products), product)
    {
      products := products - {product.id};
    }

    /** The value `getProductById(id)` emits for the current table. */
    function GetProductById(id: string): (r: Option<ProductEntity>)
      reads this
      requires Valid()
      ensures r.None? <==> id !in products
      ensures r.Some? ==> r.value == products[id] && r.value.id == id
    {
      Lookup(products, id)
    }

    /** The list `getAllProducts()` emits for the current table. */
    ghost function GetAllProducts(): (r: seq<ProductEntity>)
      reads this
      requires Valid()
      ensures |r| == |products| && ListsRows(r, products) && DistinctIds(r)
      ensures forall i, j :: 0 <= i < j < |r| ==> Collation.LessOrEqual(r[i].name, r[j].name)
    {
      ListingListsTable(products);
      ListingByName(products);
      Listing(products)
    }
  }
}

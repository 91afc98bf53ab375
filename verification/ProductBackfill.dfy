/** Giving every item without a product a catalog product of its own, named after the item. */
module ProductBackfill {
  import opened Prelude
  import opened Selection

  type ItemId = nat
  type ProductId = nat

  datatype Item = Item(name: string, productId: Option<ProductId>)

  datatype Product = Product(name: string, barcode: Option<string>, isActive: bool)

  type Items = map<ItemId, Item>
  type Products = map<ProductId, Product>

  function Unlinked(items: Items): set<ItemId> {
    set i | i in items && items[i].productId.None?
  }

  /** Nothing that was there before is changed. */
  predicate Untouched(items: Items, products: Products, rows: Items, catalog: Products, done: set<ItemId>) {
    && rows.Keys == items.Keys
    && (forall p | p in products :: p in catalog && catalog[p] == products[p])
    && (forall i | i in items && i !in done :: rows[i] == items[i])
  }

  /** Every item done has a new product with its name and no barcode. */
  predicate Named(items: Items, products: Products, rows: Items, catalog: Products, done: set<ItemId>) {
    forall i | i in done :: i in items && i in rows
      && rows[i].name == items[i].name && rows[i].productId.Some?
      && rows[i].productId.value in catalog && rows[i].productId.value !in products
      && catalog[rows[i].productId.value] == Product(items[i].name, None, true)
  }

  /** No two share one, and no new product is left over. */
  ghost predicate OneToOne(products: Products, rows: Items, catalog: Products, done: set<ItemId>) {
    && done <= rows.Keys
    && (forall i, j | i in done && j in done && rows[i].productId == rows[j].productId :: i == j)
    && (forall p | p in catalog && p !in products :: exists i :: i in done && rows[i].productId == Some(p))
  }

  /** What the loop has done once the items in `done` are through. */
  ghost predicate Backfilled(items: Items, products: Products, rows: Items, catalog: Products, done: set<ItemId>) {
    && Untouched(items, products, rows, catalog, done)
    && Named(items, products, rows, catalog, done)
    && OneToOne(products, rows, catalog, done)
  }

  function LinkTo(rows: Items, i: ItemId, p: ProductId): Items
    requires i in rows
  {
    rows[i := rows[i].(productId := Some(p))]
  }

  lemma OneToOneStep(items: Items, products: Products, rows: Items, catalog: Products, done: set<ItemId>, i: ItemId,
                     p: ProductId, product: Product)
    requires OneToOne(products, rows, catalog, done) && Named(items, products, rows, catalog, done)
    requires i in rows && i !in done && p !in catalog
    ensures OneToOne(products, LinkTo(rows, i, p), catalog[p := product], done + {i})
  {
    var rows' := LinkTo(rows, i, p);
    forall q | q in catalog[p := product] && q !in products
      ensures exists k :: k in done + {i} && rows'[k].productId == Some(q)
    {
      if q == p {
        assert rows'[i].productId == Some(q);
      } else {
        var k :| k in done && rows[k].productId == Some(q);
        assert rows'[k].productId == Some(q);
      }
    }
  }

  lemma BackfillStep(items: Items, products: Products, rows: Items, catalog: Products, done: set<ItemId>, i: ItemId,
                     p: ProductId)
    requires Backfilled(items, products, rows, catalog, done) && i in items && i !in done
    requires p !in catalog && items[i].productId.None?
    ensures i in rows
    ensures Backfilled(items, products, LinkTo(rows, i, p), catalog[p := Product(items[i].name, None, true)],
                       done + {i})
  {
    OneToOneStep(items, products, rows, catalog, done, i, p, Product(items[i].name, None, true));
    hide OneToOne;
  }

  /**
   upgrade: a bijection between the items that had no product and the new products; never shared,
   never merged by name, and linked items and existing products are untouched.
   */
  method Upgrade(items: Items, products: Products, uuid4: nat -> ProductId) returns (rows: Items, catalog: Products)
    requires forall m: nat, n: nat :: uuid4(m) == uuid4(n) ==> m == n
    requires forall n: nat :: uuid4(n) !in products
    ensures Backfilled(items, products, rows, catalog, Unlinked(items))
    ensures Unlinked(rows) == {}
    ensures forall i | i in items :: i in rows && rows[i].name == items[i].name && rows[i].productId.Some?
              && (items[i].productId.Some? ==> rows[i].productId == items[i].productId)
  {
    hide Backfilled;
    rows, catalog := items, products;
    var order := InSomeOrder(Unlinked(items));
    ListingFacts(order, Unlinked(items));
    Start(items, products);
    var done: set<ItemId> := {};
    for n := 0 to |order|
      invariant done == set i | i in order[..n]
      invariant Backfilled(items, products, rows, catalog, done)
      invariant forall m: nat | m >= n :: uuid4(m) !in catalog
    {
      assert order[..n + 1] == order[..n] + [order[n]];
      assert order[n] in Unlinked(items);
      BackfillStep(items, products, rows, catalog, done, order[n], uuid4(n));
      catalog := catalog[uuid4(n) := Product(items[order[n]].name, None, true)];
      rows := LinkTo(rows, order[n], uuid4(n));
      done := done + {order[n]};
    }
    assert order[..|order|] == order;
    assert done == Unlinked(items);
    NoneUnlinked(items, products, rows, catalog);
  }

  lemma Start(items: Items, products: Products)
    ensures Backfilled(items, products, items, products, {})
  {
  }

  lemma NoneUnlinked(items: Items, products: Products, rows: Items, catalog: Products)
    requires Backfilled(items, products, rows, catalog, Unlinked(items))
    ensures Unlinked(rows) == {}
    ensures forall i | i in items :: i in rows && rows[i].name == items[i].name && rows[i].productId.Some?
              && (items[i].productId.Some? ==> rows[i].productId == items[i].productId)
  {
  }
}

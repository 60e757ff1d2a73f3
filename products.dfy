/** The product catalogue: creation with a unique SKU, partial updates,
    deletion, restocking, and the two catalogue queries. */
module Products {
  import opened Common
  import opened Domain
  import opened Orders

  /** `create`: refused when the SKU is taken. The product id is not
      checked: a second product under a taken id is shadowed by the first
      for every lookup by id, so the table keeps the first. The creation is
      logged under the `system` actor. */
  method Create(db: Db, productId: Id, name: string, description: Option<string>, price: real, sku: string,
                imageUrl: Option<string>, stockLevel: int, category: Option<string>, now: int, logId: string)
    returns (r: Result<()>)
    requires db.Valid()
    modifies db`products, db`productKeys, db`logs
    ensures db.Valid()
    ensures r.Err? ==> unchanged(db)
    ensures r.Err? <==> exists k :: k in old(db.products) && old(db.products)[k].sku == sku
    ensures r.Err? ==> r == Err(DuplicateSku(sku))
    ensures r.Ok? && productId !in old(db.products) ==>
      && db.products == old(db.products)[productId :=
           Product(productId, name, description, price, sku, imageUrl, stockLevel, category, now, now)]
      && db.productKeys == old(db.productKeys) + [productId]
    ensures r.Ok? && productId in old(db.products) ==>
      db.products == old(db.products) && db.productKeys == old(db.productKeys)
    ensures r.Ok? ==> db.logs == old(db.logs) + [AuditLog(logId, ProductCreated, "system", productId, ProductCreation(name, sku), now)]
  {
    if exists k :: k in db.products && db.products[k].sku == sku {
      return Err(DuplicateSku(sku));
    }
    if productId !in db.products {
      EnumeratesAppend(db.productKeys, db.products.Keys, productId);
      db.products := db.products[productId := Product(productId, name, description, price, sku, imageUrl, stockLevel, category, now, now)];
      db.productKeys := db.productKeys + [productId];
    }
    db.logs := db.logs + [AuditLog(logId, ProductCreated, "system", productId, ProductCreation(name, sku), now)];
    r := Ok(());
  }

  /** The product after `update`: each supplied field replaced, every other
      field kept, and `updatedAt` stamped. */
  function Patched(p: Product, patch: ProductPatch, now: int): (r: Product)
    ensures r.productId == p.productId && r.sku == p.sku && r.stockLevel == p.stockLevel && r.createdAt == p.createdAt
    ensures r.updatedAt == now
    ensures r.name == (if patch.name.Some? then patch.name.value else p.name)
    ensures r.price == (if patch.price.Some? then patch.price.value else p.price)
    ensures r.description == (if patch.description.Some? then patch.description else p.description)
    ensures r.imageUrl == (if patch.imageUrl.Some? then patch.imageUrl else p.imageUrl)
    ensures r.category == (if patch.category.Some? then patch.category else p.category)
  {
    var p1 := p.(updatedAt := now);
    var p2 := if patch.name.Some? then p1.(name := patch.name.value) else p1;
    var p3 := if patch.description.Some? then p2.(description := patch.description) else p2;
    var p4 := if patch.price.Some? then p3.(price := patch.price.value) else p3;
    var p5 := if patch.imageUrl.Some? then p4.(imageUrl := patch.imageUrl) else p4;
    if patch.category.Some? then p5.(category := patch.category) else p5
  }

  /** An empty patch only stamps the product, and patching is idempotent. */
  lemma PatchedSpec(p: Product, patch: ProductPatch, t1: int, t2: int)
    ensures Patched(p, ProductPatch(None, None, None, None, None), t1) == p.(updatedAt := t1)
    ensures Patched(Patched(p, patch, t1), patch, t2) == Patched(p, patch, t2)
  {
  }

  /** `update`: the supplied fields and `updatedAt`, never the SKU or the
      stock; logged with the changes. */
  method Update(db: Db, productId: Id, patch: ProductPatch, adminId: Id, now: int, logId: string) returns (r: Result<()>)
    requires db.Valid()
    modifies db`products, db`logs
    ensures db.Valid()
    ensures r.Err? ==> unchanged(db)
    ensures r.Ok? <==> productId in old(db.products)
    ensures r.Err? ==> r == Err(ProductNotFound(productId))
    ensures r.Ok? ==>
      && db.products == old(db.products)[productId := Patched(old(db.products)[productId], patch, now)]
      && db.logs == old(db.logs) + [AuditLog(logId, ProductUpdated, adminId, productId, ProductChanges(patch, now), now)]
  {
    if productId !in db.products {
      return Err(ProductNotFound(productId));
    }
    var product := db.products[productId];
    var updates := product.(updatedAt := now);
    if patch.name.Some? { updates := updates.(name := patch.name.value); }
    if patch.description.Some? { updates := updates.(description := patch.description); }
    if patch.price.Some? { updates := updates.(price := patch.price.value); }
    if patch.imageUrl.Some? { updates := updates.(imageUrl := patch.imageUrl); }
    if patch.category.Some? { updates := updates.(category := patch.category); }
    db.products := db.products[productId := updates];
    db.logs := db.logs + [AuditLog(logId, ProductUpdated, adminId, productId, ProductChanges(patch, now), now)];
    r := Ok(());
  }

  /** `remove`: the product leaves the table and the catalogue. */
  method Remove(db: Db, productId: Id) returns (r: Result<()>)
    requires db.Valid()
    modifies db`products, db`productKeys
    ensures db.Valid()
    ensures r.Err? ==> unchanged(db)
    ensures r.Ok? <==> productId in old(db.products)
    ensures r.Err? ==> r == Err(ProductNotFound(productId))
    ensures r.Ok? ==> db.products == old(db.products) - {productId}
    ensures r.Ok? ==> db.productKeys == Filter(old(db.productKeys), Other(productId))
  {
    if productId !in db.products {
      return Err(ProductNotFound(productId));
    }
    EnumeratesRemove(db.productKeys, db.products.Keys, productId);
    db.products := db.products - {productId};
    db.productKeys := Filter(db.productKeys, Other(productId));
    r := Ok(());
  }

  /** Once a product is removed, restoring an order's stock skips it and
      does to the rest exactly what it would have done. */
  lemma RestoreAfterRemove(products: map<Id, Product>, productId: Id, items: seq<Item>, sign: int, now: int)
    ensures AdjustStock(products - {productId}, items, sign, now) == AdjustStock(products, items, sign, now) - {productId}
  {
    var left := AdjustStock(products - {productId}, items, sign, now);
    var right := AdjustStock(products, items, sign, now) - {productId};
    forall k | k in left ensures left[k] == right[k] {
      AdjustStockAt(products - {productId}, items, sign, now, k);
      AdjustStockAt(products, items, sign, now, k);
    }
  }

  /** `restock`: the stock moves by exactly `quantity` (which may be
      negative), and the new level is logged and returned. */
  method Restock(db: Db, productId: Id, quantity: int, reason: Option<string>, adminId: Id, now: int, logId: string)
    returns (r: Result<int>)
    requires db.Valid()
    modifies db`products, db`logs
    ensures db.Valid()
    ensures r.Err? ==> unchanged(db)
    ensures r.Ok? <==> productId in old(db.products)
    ensures r.Err? ==> r == Err(ProductNotFound(productId))
    ensures r.Ok? ==>
      var before := old(db.products)[productId];
      && r.value == before.stockLevel + quantity
      && db.products == old(db.products)[productId := before.(stockLevel := r.value, updatedAt := now)]
      && db.logs == old(db.logs) + [AuditLog(logId, StockRestocked, adminId, productId, Domain.Restock(quantity, reason, r.value), now)]
  {
    if productId !in db.products {
      return Err(ProductNotFound(productId));
    }
    var product := db.products[productId];
    db.products := db.products[productId := product.(stockLevel := product.stockLevel + quantity, updatedAt := now)];
    db.logs := db.logs + [AuditLog(logId, StockRestocked, adminId, productId,
                                   Domain.Restock(quantity, reason, product.stockLevel + quantity), now)];
    r := Ok(product.stockLevel + quantity);
  }

  // ---------------------------------------------------------------------
  // Queries

  function Below(threshold: int): Product -> bool {
    (p: Product) => p.stockLevel < threshold
  }

  /** `getLowStock`: the products whose stock is under the threshold, which
      is 10 when absent or 0, in creation order. */
  method GetLowStock(db: Db, threshold: Option<int>) returns (r: seq<Product>)
    requires db.Valid()
    ensures r == Filter(db.AllProducts(), Below(LimitOr(threshold, 10)))
    ensures forall p :: p in r <==>
      p in db.products.Values && p.stockLevel < (if threshold.None? || threshold.value == 0 then 10 else threshold.value)
  {
    var t := LimitOr(threshold, 10);
    var products := db.AllProducts();
    r := Filter(products, Below(t));
    CollectMembers(db.products, db.productKeys);
    forall p | p in products && Below(t)(p) ensures p in r {
      var m :| 0 <= m < |products| && products[m] == p;
    }
  }

  function InCategory(category: string): Product -> bool {
    (p: Product) => p.category == Some(category)
  }

  /** The products `getAll` starts from: the category's, when one is
      given, all of them otherwise, in creation order. */
  function Shelf(all: seq<Product>, category: Option<string>): seq<Product> {
    if Truthy(category) then Filter(all, InCategory(category.value)) else all
  }

  lemma ShelfMembers(all: seq<Product>, category: Option<string>)
    ensures forall p :: p in Shelf(all, category) <==> p in all && (Truthy(category) ==> p.category == category)
  {
    if Truthy(category) {
      var shelf := Shelf(all, category);
      forall p | p in all && p.category == category ensures p in shelf {
        var m :| 0 <= m < |all| && all[m] == p;
      }
      forall p | p in shelf ensures p in all {
        var m :| 0 <= m < |shelf| && shelf[m] == p;
      }
    }
  }

  /** `getAll`: a prefix of the shelf, cut to a non-zero limit; with no
      limit, the whole shelf. */
  method GetAll(db: Db, category: Option<string>, limit: Option<int>) returns (r: seq<Product>)
    requires db.Valid()
    ensures r == ApplyLimit(Shelf(db.AllProducts(), category), limit)
    ensures r <= Shelf(db.AllProducts(), category)
    ensures forall p :: p in r ==> p in db.products.Values && (Truthy(category) ==> p.category == category)
    ensures limit.Some? && limit.value > 0 ==> |r| == Min(limit.value, |Shelf(db.AllProducts(), category)|)
    ensures limit.None? || limit.value == 0 ==>
      forall p :: p in db.products.Values && (Truthy(category) ==> p.category == category) ==> p in r
  {
    var products;
    if Truthy(category) {
      products := Filter(db.AllProducts(), InCategory(category.value));
    } else {
      products := db.AllProducts();
    }
    CollectMembers(db.products, db.productKeys);
    ShelfMembers(db.AllProducts(), category);
    if limit.Some? && limit.value != 0 {
      r := Take(products, limit.value);
      PrefixMembers(r, products);
      return;
    }
    r := products;
  }
}

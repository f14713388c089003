/**
 * `InMemoryProductRepository`: a process-wide mutable map from sku to product
 * record. `save` keys the record by its own sku; `findBySku` reads; `delete`
 * removes and reports whether anything was there.
 */
module ProductRepository {
  import opened Dto
  import opened Wrappers

  type Store = map<Int32, ProductResponse>

  /** Kotlin's `products[sku]`: the mapped record, or null. */
  function Lookup(products: Store, sku: Int32): (r: Option<ProductResponse>)
    ensures r.Some? <==> sku in products
    ensures r.Some? ==> r.value == products[sku]
  {
    if sku in products then Some(products[sku]) else None
  }

  /** Every record is stored under its own sku. */
  ghost predicate KeyedBySku(products: Store) {
    forall k :: k in products ==> products[k].sku == k
  }

  /** `before` and `after` map every key other than `key` alike. */
  ghost predicate AgreeExcept(before: Store, after: Store, key: Int32) {
    forall k :: k != key ==> Lookup(before, k) == Lookup(after, k)
  }

  class InMemoryProductRepository {
    var products: Store

    constructor ()
      ensures products == map[]
    {
      products := map[];
    }

    method Save(product: ProductResponse) returns (saved: ProductResponse)
      modifies this
      ensures products == old(products)[product.sku := product]
      ensures saved == product
    {
      products := products[product.sku := product];
      saved := product;
    }

    method FindBySku(sku: Int32) returns (found: Option<ProductResponse>)
      ensures found.Some? <==> sku in products
      ensures found.Some? ==> found.value == products[sku]
    {
      if sku in products {
        found := Some(products[sku]);
      } else {
        found := None;
      }
    }

    method Delete(sku: Int32) returns (removed: bool)
      modifies this
      ensures removed <==> sku in old(products)
      ensures products == old(products) - {sku}
    {
      removed := sku in products;
      products := products - {sku};
    }
  }

  /** After `save(p)`, `findBySku(p.sku)` gives `p` and every other key is as before. */
  lemma SaveThenFind(products: Store, product: ProductResponse, sku: Int32)
    ensures Lookup(products[product.sku := product], sku)
         == if sku == product.sku then Some(product) else Lookup(products, sku)
  {
  }

  lemma SaveTouchesOneKey(products: Store, product: ProductResponse)
    ensures AgreeExcept(products, products[product.sku := product], product.sku)
  {
  }

  lemma SavePreservesKeyedBySku(products: Store, product: ProductResponse)
    requires KeyedBySku(products)
    ensures KeyedBySku(products[product.sku := product])
  {
  }

  /** After `delete(k)`, `k` is absent and every other key is as before. */
  lemma DeleteThenFind(products: Store, key: Int32, sku: Int32)
    ensures Lookup(products - {key}, sku) == if sku == key then None else Lookup(products, sku)
  {
  }

  /** A second `delete(k)` finds nothing to remove and leaves the map as the first one left it. */
  lemma DeleteIdempotent(products: Store, key: Int32)
    ensures key !in products - {key}
    ensures (products - {key}) - {key} == products - {key}
  {
  }

  lemma DeletePreservesKeyedBySku(products: Store, key: Int32)
    requires KeyedBySku(products)
    ensures KeyedBySku(products - {key})
  {
  }
}

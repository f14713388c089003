/**
 * `ProductServiceImpl`: create, read, update and delete over the repository,
 * with presence checks and the two derived inventory fields recomputed on
 * every write. Exceptions become `Failure` values carrying the offending sku.
 *
 * Each operation is specified by a function from the old store to a `Step`
 * (the outcome and the new store); the class methods, which work on the
 * repository object in place, are proved to produce exactly that step.
 */
module ProductService {
  import opened Dto
  import opened Wrappers
  import opened Quantity
  import opened Decimal
  import ProductMapper
  import opened ProductRepository

  /** The two thrown `ResponseStatusException`s: CONFLICT on create, NOT_FOUND on read, update and delete. */
  datatype ServiceError = Conflict(sku: Int32) | NotFound(sku: Int32)

  /** The exception's reason text: it names the offending sku in decimal, at the end (Conflict) or before a closing '!' (NotFound). */
  function Reason(e: ServiceError): (text: string)
    ensures |IntToString(e.sku)| < |text|
    ensures e.Conflict? ==> text[|text| - |IntToString(e.sku)|..] == IntToString(e.sku)
    ensures e.NotFound? ==> text[|text| - 1 - |IntToString(e.sku)|..] == IntToString(e.sku) + "!"
  {
    match e
    case Conflict(sku) => "f=createProduct(), " + "Product already exists, sku=" + IntToString(sku)
    case NotFound(sku) => "Product not found, sku=" + IntToString(sku) + "!"
  }

  lemma ReasonKind(e: ServiceError)
    ensures |Reason(e)| > 0
    ensures Reason(e)[0] == 'f' <==> e.Conflict?
  {
    match e
    case Conflict(sku) =>
      var prefix := "f=createProduct(), " + "Product already exists, sku=";
      assert prefix[0] == 'f';
      assert Reason(e) == prefix + IntToString(sku);
    case NotFound(sku) =>
      var prefix := "Product not found, sku=";
      assert prefix[0] == 'P';
      assert Reason(e) == prefix + IntToString(sku) + "!";
  }

  /** The reason text determines the error: its kind and its sku can be read back from it. */
  lemma ReasonIdentifiesError(e1: ServiceError, e2: ServiceError)
    requires Reason(e1) == Reason(e2)
    ensures e1 == e2
  {
    ReasonKind(e1);
    ReasonKind(e2);
    var text := Reason(e1);
    if e1.Conflict? {
      var prefix := "f=createProduct(), " + "Product already exists, sku=";
      assert text[|prefix|..] == IntToString(e1.sku);
      assert Reason(e2)[|prefix|..] == IntToString(e2.sku);
      IntToStringInjective(e1.sku, e2.sku);
    } else {
      var prefix := "Product not found, sku=";
      assert text[|prefix|..|text| - 1] == IntToString(e1.sku);
      assert Reason(e2)[|prefix|..|text| - 1] == IntToString(e2.sku);
      IntToStringInjective(e1.sku, e2.sku);
    }
  }

  /** The Triple `buildProductResponse` returns. */
  datatype Derived = Derived(warehouseList: seq<Warehouse>, inventoryQuantity: Int32, isMarketable: bool)

  /**
   * `buildProductResponse`: a copy of the request's warehouse list, its total
   * as Kotlin's `sumOf` computes it, and whether that total is positive.
   * Quantities are not checked for sign.
   */
  function BuildProductResponse(request: ProductRequest): (r: Derived)
    ensures r.warehouseList == request.inventory.warehouses
    ensures r.inventoryQuantity == Wrap32(Sum(request.inventory.warehouses))
    ensures InInt32Range(Sum(request.inventory.warehouses)) ==> r.inventoryQuantity == Sum(request.inventory.warehouses)
    ensures r.isMarketable <==> r.inventoryQuantity > 0
    ensures request.inventory.warehouses == [] ==> r.inventoryQuantity == 0 && !r.isMarketable
  {
    var ws := request.inventory.warehouses;
    var warehouseList := seq(|ws|, i requires 0 <= i < |ws| => Warehouse(ws[i].locality, ws[i].quantity, ws[i].warehouseType));
    var inventoryQuantity := SumOf(ws);
    Derived(warehouseList, inventoryQuantity, inventoryQuantity > 0)
  }

  /** A record whose derived total and flag agree with its warehouse list. */
  predicate Consistent(p: ProductResponse) {
    && p.inventory.quantity == SumOf(p.inventory.warehouses)
    && p.isMarketable == (p.inventory.quantity > 0)
  }

  /** What a consistent record's fields mean: the wrapped exact total, and, barring negative stock and overflow, "some warehouse has stock". */
  lemma ConsistentMeaning(p: ProductResponse)
    requires Consistent(p)
    ensures p.inventory.quantity == Wrap32(Sum(p.inventory.warehouses))
    ensures NoNegativeStock(p.inventory.warehouses) && InInt32Range(Sum(p.inventory.warehouses)) ==>
              (p.isMarketable <==> SomeStock(p.inventory.warehouses))
  {
    if NoNegativeStock(p.inventory.warehouses) {
      SumPositiveIffSomeStock(p.inventory.warehouses);
    }
  }

  /** The store invariant every service write keeps: records keyed by their own sku, derived fields consistent. */
  ghost predicate StoreInvariant(products: Store) {
    forall k :: k in products ==> products[k].sku == k && Consistent(products[k])
  }

  /** An operation's outcome together with the store it leaves. */
  datatype Step<+T> = Step(result: Result<T, ServiceError>, products: Store)

  /** `createProduct` on the store `products`. */
  ghost function CreateStep(products: Store, request: ProductRequest): (s: Step<ProductResponse>)
    ensures request.sku in products ==> s == Step(Failure(Conflict(request.sku)), products)
    ensures request.sku !in products ==>
              && s.result.Success?
              && s.result.value.sku == request.sku
              && s.result.value.name == request.name
              && s.result.value.inventory.warehouses == request.inventory.warehouses
              && Consistent(s.result.value)
              && s.products == products[request.sku := s.result.value]
  {
    if request.sku in products then
      Step(Failure(Conflict(request.sku)), products)
    else
      var d := BuildProductResponse(request);
      var product := ProductMapper.FromRequest(request, d.warehouseList, d.inventoryQuantity, d.isMarketable);
      Step(Success(product), products[product.sku := product])
  }

  /** `getProductSku` on the store `products` (which it leaves as it is). */
  ghost function GetResult(products: Store, sku: Int32): (r: Result<ProductResponse, ServiceError>)
    ensures r.Success? <==> sku in products
    ensures r.Success? ==> r.value == products[sku]
    ensures r.Failure? ==> r.error == NotFound(sku)
  {
    match Lookup(products, sku)
    case Some(product) => Success(product)
    case None => Failure(NotFound(sku))
  }

  /**
   * `updateProductSku` on the store `products`: the prior record's sku and name,
   * the request's warehouses (the request's own sku and name are ignored),
   * saved under the prior record's sku.
   */
  ghost function UpdateStep(products: Store, sku: Int32, request: ProductRequest): (s: Step<ProductResponse>)
    ensures sku !in products ==> s == Step(Failure(NotFound(sku)), products)
    ensures sku in products ==>
              && s.result.Success?
              && s.result.value.sku == products[sku].sku
              && s.result.value.name == products[sku].name
              && s.result.value.inventory.warehouses == request.inventory.warehouses
              && Consistent(s.result.value)
              && s.products == products[products[sku].sku := s.result.value]
  {
    match Lookup(products, sku)
    case None => Step(Failure(NotFound(sku)), products)
    case Some(prior) =>
      var d := BuildProductResponse(request);
      var product := ProductMapper.FromResponse(prior, d.warehouseList, d.inventoryQuantity, d.isMarketable);
      Step(Success(product), products[product.sku := product])
  }

  /** `deleteProductSku` on the store `products`. */
  ghost function DeleteStep(products: Store, sku: Int32): (s: Step<bool>)
    ensures s.result.Success? <==> sku in products
    ensures s.result.Success? ==> s.result.value
    ensures s.result.Failure? ==> s.result.error == NotFound(sku) && s.products == products
    ensures sku !in s.products
    ensures AgreeExcept(products, s.products, sku)
  {
    match Lookup(products, sku)
    case None => Step(Failure(NotFound(sku)), products)
    case Some(_) => Step(Success(true), products - {sku})
  }

  class ProductServiceImpl {
    const repository: InMemoryProductRepository

    constructor (repository: InMemoryProductRepository)
      ensures this.repository == repository
      ensures repository.products == map[] ==> Valid()
    {
      this.repository := repository;
    }

    ghost predicate Valid()
      reads this, repository
    {
      StoreInvariant(repository.products)
    }

    method CreateProduct(request: ProductRequest) returns (r: Result<ProductResponse, ServiceError>)
      modifies repository
      ensures r == CreateStep(old(repository.products), request).result
      ensures repository.products == CreateStep(old(repository.products), request).products
      ensures old(Valid()) ==> Valid()
    {
      var existing := repository.FindBySku(request.sku);
      if existing.Some? {
        return Failure(Conflict(request.sku));
      }
      var d := BuildProductResponse(request);
      var saved := repository.Save(ProductMapper.FromRequest(request, d.warehouseList, d.inventoryQuantity, d.isMarketable));
      r := Success(saved);
      CreatePreservesInvariant(old(repository.products), request);
    }

    method GetProductSku(sku: Int32) returns (r: Result<ProductResponse, ServiceError>)
      ensures r == GetResult(repository.products, sku)
      ensures r.Success? ==> sku in repository.products && r.value == repository.products[sku]
      ensures r.Failure? ==> sku !in repository.products && r.error == NotFound(sku)
    {
      var found := repository.FindBySku(sku);
      match found
      case Some(product) => r := Success(product);
      case None => r := Failure(NotFound(sku));
    }

    method UpdateProductSku(sku: Int32, request: ProductRequest) returns (r: Result<ProductResponse, ServiceError>)
      modifies repository
      ensures r == UpdateStep(old(repository.products), sku, request).result
      ensures repository.products == UpdateStep(old(repository.products), sku, request).products
      ensures old(Valid()) ==> Valid()
    {
      var found := repository.FindBySku(sku);
      match found
      case None =>
        r := Failure(NotFound(sku));
      case Some(product) =>
        var d := BuildProductResponse(request);
        var saved := repository.Save(ProductMapper.FromResponse(product, d.warehouseList, d.inventoryQuantity, d.isMarketable));
        r := Success(saved);
      UpdatePreservesInvariant(old(repository.products), sku, request);
    }

    method DeleteProductSku(sku: Int32) returns (r: Result<bool, ServiceError>)
      modifies repository
      ensures r == DeleteStep(old(repository.products), sku).result
      ensures repository.products == DeleteStep(old(repository.products), sku).products
      ensures old(Valid()) ==> Valid()
    {
      var found := repository.FindBySku(sku);
      if found.None? {
        return Failure(NotFound(sku));
      }
      var _ := repository.Delete(sku);
      r := Success(true);
      DeletePreservesInvariant(old(repository.products), sku);
    }
  }

  lemma CreatePreservesInvariant(products: Store, request: ProductRequest)
    ensures StoreInvariant(products) ==> StoreInvariant(CreateStep(products, request).products)
    ensures AgreeExcept(products, CreateStep(products, request).products, request.sku)
  {
  }

  lemma UpdatePreservesInvariant(products: Store, sku: Int32, request: ProductRequest)
    ensures StoreInvariant(products) ==> StoreInvariant(UpdateStep(products, sku, request).products)
  {
  }

  lemma DeletePreservesInvariant(products: Store, sku: Int32)
    ensures StoreInvariant(products) ==> StoreInvariant(DeleteStep(products, sku).products)
  {
  }

  /** Given the invariant, update writes back under the path sku and touches no other key. */
  lemma UpdateTouchesOnlyItsKey(products: Store, sku: Int32, request: ProductRequest)
    requires KeyedBySku(products) && sku in products
    ensures UpdateStep(products, sku, request).result.value.sku == sku
    ensures UpdateStep(products, sku, request).products == products[sku := UpdateStep(products, sku, request).result.value]
    ensures AgreeExcept(products, UpdateStep(products, sku, request).products, sku)
  {
  }

  /** Update depends on the request only through its warehouse list. */
  lemma UpdateIgnoresRequestIdentity(products: Store, sku: Int32, r1: ProductRequest, r2: ProductRequest)
    requires r1.inventory == r2.inventory
    ensures UpdateStep(products, sku, r1) == UpdateStep(products, sku, r2)
  {
  }

  /** Read-after-write: a successful create is what a following read returns. */
  lemma ReadAfterCreate(products: Store, request: ProductRequest)
    requires request.sku !in products
    ensures GetResult(CreateStep(products, request).products, request.sku) == CreateStep(products, request).result
  {
  }

  /** A second create of the same sku is refused and changes nothing. */
  lemma CreateTwiceConflicts(products: Store, request: ProductRequest)
    ensures var after := CreateStep(products, request).products;
            CreateStep(after, request) == Step(Failure(Conflict(request.sku)), after)
  {
  }

  /** Read, update and delete all refuse an absent sku with NotFound and leave the store as it is. */
  lemma NotFoundSymmetry(products: Store, sku: Int32, request: ProductRequest)
    requires sku !in products
    ensures GetResult(products, sku) == Failure(NotFound(sku))
    ensures UpdateStep(products, sku, request) == Step(Failure(NotFound(sku)), products)
    ensures DeleteStep(products, sku) == Step(Failure(NotFound(sku)), products)
  {
  }

  /** After a successful delete the sku reads as NotFound and can be created again. */
  lemma DeleteThenRecreate(products: Store, request: ProductRequest)
    requires request.sku in products
    ensures var after := DeleteStep(products, request.sku).products;
            && GetResult(after, request.sku) == Failure(NotFound(request.sku))
            && CreateStep(after, request).result.Success?
  {
  }
}

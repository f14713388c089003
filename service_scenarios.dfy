/**
 * The service's unit-test cases, replayed against a real in-memory repository
 * instead of a mocked one. Each method's postcondition is what the test
 * asserts, proved from the operations' contracts alone.
 */
module ServiceScenarios {
  import opened Dto
  import opened Wrappers
  import opened Quantity
  import opened ProductRepository
  import opened ProductService

  function SaoPaulo(): Warehouse {
    Warehouse("SP", 10, Ecommerce)
  }

  function RioDeJaneiro(): Warehouse {
    Warehouse("RJ", 5, PhysicalStore)
  }

  function Request123(warehouses: seq<Warehouse>): ProductRequest {
    ProductRequest(123, "Product 123", InventoryRequest(warehouses))
  }

  lemma SumOfExamples()
    ensures SumOf([SaoPaulo()]) == 10
    ensures SumOf([SaoPaulo(), RioDeJaneiro()]) == 15
  {
    assert [SaoPaulo(), RioDeJaneiro()][..1] == [SaoPaulo()];
    assert [SaoPaulo()][..0] == [];
  }

  /** The conflict reason text the tests expect. */
  lemma ConflictReasonExample()
    ensures Reason(Conflict(123)) == "f=createProduct(), Product already exists, sku=123"
  {
    var digits := Decimal.IntToString(123);
    assert digits == "123" by {
      assert Decimal.NatToString(12) == "12";
    }
    calc {
      Reason(Conflict(123));
      "f=createProduct(), " + "Product already exists, sku=" + digits;
      { assert "f=createProduct(), " + "Product already exists, sku=" + "123" == "f=createProduct(), Product already exists, sku=123"; }
      "f=createProduct(), Product already exists, sku=123";
    }
  }

  /** The not-found reason text the tests expect. */
  lemma NotFoundReasonExample()
    ensures Reason(NotFound(999)) == "Product not found, sku=999!"
  {
    var digits := Decimal.IntToString(999);
    assert digits == "999" by {
      assert Decimal.NatToString(99) == "99";
    }
    calc {
      Reason(NotFound(999));
      "Product not found, sku=" + digits + "!";
      { assert "Product not found, sku=" + "999" + "!" == "Product not found, sku=999!"; }
      "Product not found, sku=999!";
    }
  }

  /** Creating sku 123 with stock 10 + 5 stores and returns a marketable record with total 15. */
  method CreateProductSucceeds() returns (created: Result<ProductResponse, ServiceError>)
    ensures created == Success(ProductResponse(123, "Product 123", InventoryResponse(15, [SaoPaulo(), RioDeJaneiro()]), true))
  {
    var repository := new InMemoryProductRepository();
    var service := new ProductServiceImpl(repository);
    SumOfExamples();
    created := service.CreateProduct(Request123([SaoPaulo(), RioDeJaneiro()]));
  }

  /** Creating an sku that is already stored fails with CONFLICT naming that sku. */
  method CreateExistingConflicts() returns (second: Result<ProductResponse, ServiceError>)
    ensures second == Failure(Conflict(123))
    ensures Reason(second.error) == "f=createProduct(), Product already exists, sku=123"
  {
    var repository := new InMemoryProductRepository();
    var service := new ProductServiceImpl(repository);
    var first := service.CreateProduct(Request123([SaoPaulo()]));
    second := service.CreateProduct(Request123([SaoPaulo()]));
    ConflictReasonExample();
  }

  /** Reading a stored sku returns the stored record. */
  method GetStoredProduct() returns (found: Result<ProductResponse, ServiceError>)
    ensures found == Success(ProductResponse(123, "Product 123", InventoryResponse(10, [SaoPaulo()]), true))
  {
    var repository := new InMemoryProductRepository();
    var service := new ProductServiceImpl(repository);
    SumOfExamples();
    var created := service.CreateProduct(Request123([SaoPaulo()]));
    found := service.GetProductSku(123);
  }

  /** Reading, updating and deleting an sku that was never created all fail with NOT_FOUND naming it. */
  method AbsentSkuNotFound() returns (read: Result<ProductResponse, ServiceError>, updated: Result<ProductResponse, ServiceError>, deleted: Result<bool, ServiceError>)
    ensures read == Failure(NotFound(999)) && updated == Failure(NotFound(999)) && deleted == Failure(NotFound(999))
    ensures Reason(NotFound(999)) == "Product not found, sku=999!"
  {
    var repository := new InMemoryProductRepository();
    var service := new ProductServiceImpl(repository);
    read := service.GetProductSku(999);
    updated := service.UpdateProductSku(999, ProductRequest(999, "Product 999", InventoryRequest([SaoPaulo()])));
    deleted := service.DeleteProductSku(999);
    NotFoundReasonExample();
  }

  /** Updating sku 123 (total 10) with stock 10 + 5 keeps its identity and recomputes total 15. */
  method UpdateRecomputesInventory() returns (updated: Result<ProductResponse, ServiceError>)
    ensures updated == Success(ProductResponse(123, "Product 123", InventoryResponse(15, [SaoPaulo(), RioDeJaneiro()]), true))
  {
    var repository := new InMemoryProductRepository();
    var service := new ProductServiceImpl(repository);
    SumOfExamples();
    var created := service.CreateProduct(Request123([SaoPaulo()]));
    updated := service.UpdateProductSku(123, Request123([SaoPaulo(), RioDeJaneiro()]));
  }

  /** Deleting a stored sku succeeds; afterwards it reads as NOT_FOUND and can be created again. */
  method DeleteThenRecreateSucceeds() returns (deleted: Result<bool, ServiceError>, read: Result<ProductResponse, ServiceError>, recreated: Result<ProductResponse, ServiceError>)
    ensures deleted == Success(true)
    ensures read == Failure(NotFound(123))
    ensures recreated.Success? && recreated.value.sku == 123
  {
    var repository := new InMemoryProductRepository();
    var service := new ProductServiceImpl(repository);
    var created := service.CreateProduct(Request123([SaoPaulo()]));
    deleted := service.DeleteProductSku(123);
    read := service.GetProductSku(123);
    recreated := service.CreateProduct(Request123([SaoPaulo(), RioDeJaneiro()]));
  }
}

# Product store — a Dafny model

This project models the domain core of a small Kotlin/Spring product service:
an in-memory store mapping an integer SKU to a product record, and a service
that creates, reads, updates and deletes records with presence checks,
recomputing two derived fields on every write: the inventory total (sum of
the warehouse quantities) and the "marketable" flag (total > 0).

Modules, one per source component:

- `Dto` (`dto.dfy`): the data classes as datatypes; Kotlin `Int` is the subset type `Int32`.
- `Quantity` (`quantity.dfy`): the exact total `Sum`, Kotlin's `sumOf` as `SumOf` (a left fold with 32-bit wrap-around), and their properties.
- `Decimal` (`decimal.dfy`): how a string template writes an `Int` (`"${sku}"`), with its parser as partner.
- `ProductMapper` (`product_mapper.dfy`): the two `toProductResponseDto` overloads.
- `ProductRepository` (`product_repository.dfy`): the `InMemoryProductRepository` class, whose `products` map is updated in place.
- `ProductService` (`product_service.dfy`): `buildProductResponse`, the error type, one specification function per operation over the store (`CreateStep`, `GetResult`, `UpdateStep`, `DeleteStep`), the `ProductServiceImpl` class whose methods are proved to produce exactly those steps, and lemmas relating the operations.
- `ServiceScenarios` (`service_scenarios.dfy`): the service's unit tests replayed against a real repository rather than a mock.

Design choices:

- Thrown `ResponseStatusException`s become `Failure(Conflict(sku))` and `Failure(NotFound(sku))`; `Reason` gives the exception's reason text, and `ReasonIdentifiesError` shows the text determines the error.
- Integer overflow is modelled, not assumed away. The total is `Wrap32(Sum(ws))`, and it equals `Sum(ws)` whenever the exact sum fits in 32 bits.
- The store invariant is `StoreInvariant`: each record sits under its own sku and has consistent derived fields. The service never requires it, because the source does not. Each method ensures it is preserved.
- `updateProductSku` saves under the prior record's sku (`save` keys by `product.sku`). `UpdateStep` states exactly that. `UpdateTouchesOnlyItsKey` shows that under the invariant it writes back under the path sku and touches no other key.
- Warehouse quantities are never checked for sign: a negative quantity is summed like any other, as the code does.
- Update always takes sku and name from the stored record, never from the request (`UpdateIgnoresRequestIdentity`).

## Model

| member | source | states |
|---|---|---|
| `Quantity.Wrap32` | src/main/kotlin/java_test/domain/product/ProductServiceImpl.kt:83 | Kotlin `Int` arithmetic: the result is congruent to the exact value modulo 2^32, lies in Int32, and equals the exact value when that fits |
| `Quantity.SumOf` | src/main/kotlin/java_test/domain/product/ProductServiceImpl.kt:83 | `sumOf { it.quantity }` (wrapping left fold) equals the exact total `Sum` reduced into Int32, and equals `Sum` when it fits |
| `Quantity.SumAppend` | src/main/kotlin/java_test/domain/product/ProductServiceImpl.kt:83 | the total of a concatenation is the sum of the totals |
| `Quantity.SumPermutation` | src/main/kotlin/java_test/domain/product/ProductServiceImpl.kt:83 | the exact total does not depend on the order of the warehouses (any permutation gives the same total) |
| `Quantity.SumOfPermutation` | src/main/kotlin/java_test/domain/product/ProductServiceImpl.kt:83 | the wrapping `sumOf` total is order-independent too |
| `Quantity.SumPositiveIffSomeStock` | src/main/kotlin/java_test/domain/product/ProductServiceImpl.kt:83-84 | with no negative quantity the total is non-negative, and positive exactly when some warehouse has stock |
| `Decimal.NatToString` | src/main/kotlin/java_test/domain/product/ProductServiceImpl.kt:40 | decimal digits of a natural number: non-empty, digits only, no leading zero |
| `Decimal.IntToString` | src/main/kotlin/java_test/domain/product/ProductServiceImpl.kt:40 | `"${sku}"`: non-empty, starts with '-' exactly for negative numbers |
| `Decimal.ParseNatToString` | src/main/kotlin/java_test/domain/product/ProductServiceImpl.kt:40 | parsing the digits of `n` gives back `n` |
| `Decimal.ParseIntToString` | src/main/kotlin/java_test/domain/product/ProductServiceImpl.kt:40 | the decimal text of any integer is well formed and reads back as that integer |
| `Decimal.IntToStringInjective` | src/main/kotlin/java_test/domain/product/ProductServiceImpl.kt:40 | distinct skus have distinct decimal texts |
| `ProductMapper.FromRequest` | src/main/kotlin/java_test/domain/product/mappers/ProductMapper.kt:10-25 | sku and name come from the request; quantity, warehouse list and flag are the given ones, unchanged |
| `ProductMapper.FromResponse` | src/main/kotlin/java_test/domain/product/mappers/ProductMapper.kt:27-42 | sku and name come from the prior record; its old inventory and flag are replaced by the given ones |
| `ProductMapper.OverloadsAgree` | src/main/kotlin/java_test/domain/product/mappers/ProductMapper.kt:10-42 | both overloads give the same record when their sources share sku and name |
| `ProductMapper.FromResponseUsesOnlyIdentity` | src/main/kotlin/java_test/domain/product/mappers/ProductMapper.kt:27-42 | two prior records with the same sku and name give the same result, whatever their old inventory and flag: only sku and name are taken from the prior record |
| `ProductRepository.Lookup` | src/main/kotlin/java_test/domain/product/InMemoryProductRepository.kt:17 | `products[sku]`: a value exactly when the key is present, and then the mapped record |
| `ProductRepository.InMemoryProductRepository.constructor` | src/main/kotlin/java_test/domain/product/InMemoryProductRepository.kt:7-8 | the store starts empty |
| `ProductRepository.InMemoryProductRepository.Save` | src/main/kotlin/java_test/domain/product/InMemoryProductRepository.kt:10-14 | the map becomes the old map with `product.sku` bound to `product`; returns `product` unchanged |
| `ProductRepository.InMemoryProductRepository.FindBySku` | src/main/kotlin/java_test/domain/product/InMemoryProductRepository.kt:16-18 | returns the mapped record when the key is present, none otherwise; changes nothing |
| `ProductRepository.InMemoryProductRepository.Delete` | src/main/kotlin/java_test/domain/product/InMemoryProductRepository.kt:20-22 | returns true iff the key was present; the map becomes the old map without that key |
| `ProductRepository.SaveThenFind` | src/main/kotlin/java_test/domain/product/InMemoryProductRepository.kt:10-18 | after `save(p)`, looking up `p.sku` gives `p` and every other key gives what it gave before |
| `ProductRepository.SaveTouchesOneKey` | src/main/kotlin/java_test/domain/product/InMemoryProductRepository.kt:11 | `save` changes no key other than `p.sku` |
| `ProductRepository.SavePreservesKeyedBySku` | src/main/kotlin/java_test/domain/product/InMemoryProductRepository.kt:11 | `save` keeps every record stored under its own sku |
| `ProductRepository.DeleteThenFind` | src/main/kotlin/java_test/domain/product/InMemoryProductRepository.kt:20-22 | after `delete(k)`, `k` is absent and every other key gives what it gave before |
| `ProductRepository.DeleteIdempotent` | src/main/kotlin/java_test/domain/product/InMemoryProductRepository.kt:21 | a second `delete(k)` finds nothing (returns false) and leaves the map unchanged |
| `ProductRepository.DeletePreservesKeyedBySku` | src/main/kotlin/java_test/domain/product/InMemoryProductRepository.kt:21 | `delete` keeps every record stored under its own sku |
| `ProductService.Reason` | src/main/kotlin/java_test/domain/product/ProductServiceImpl.kt:22-49 | the reason text names the offending sku in decimal: at its end for a conflict, before the closing '!' for not found |
| `ProductService.ReasonKind` | src/main/kotlin/java_test/domain/product/ProductServiceImpl.kt:23-24 | the reason text's first character tells a conflict from a not-found error |
| `ProductService.ReasonIdentifiesError` | src/main/kotlin/java_test/domain/product/ProductServiceImpl.kt:22-49 | two errors with the same reason text are the same error (same kind, same sku) |
| `ProductService.BuildProductResponse` | src/main/kotlin/java_test/domain/product/ProductServiceImpl.kt:75-87 | the warehouse list equals the request's; the total is the wrapped sum (the exact sum when it fits); the flag is total > 0; an empty list gives (0, false) |
| `ProductService.ConsistentMeaning` | src/main/kotlin/java_test/domain/product/ProductServiceImpl.kt:83-84 | a consistent record's total is the wrapped exact sum; with no negative stock and no overflow it is marketable iff some warehouse has stock |
| `ProductService.CreateStep` | src/main/kotlin/java_test/domain/product/ProductServiceImpl.kt:19-34 | present sku: Conflict(sku), store unchanged; absent sku: a consistent record with the request's sku, name and warehouses, stored under `request.sku` and nowhere else |
| `ProductService.GetResult` | src/main/kotlin/java_test/domain/product/ProductServiceImpl.kt:36-42 | success iff the sku is present, with exactly the stored record; NotFound(sku) otherwise |
| `ProductService.UpdateStep` | src/main/kotlin/java_test/domain/product/ProductServiceImpl.kt:44-61 | absent sku: NotFound(sku), store unchanged; present: a consistent record with the prior record's sku and name and the request's warehouses, saved under the prior record's sku |
| `ProductService.DeleteStep` | src/main/kotlin/java_test/domain/product/ProductServiceImpl.kt:63-73 | success (true) iff the sku was present; NotFound leaves the store; afterwards the sku is absent and no other key changed |
| `ProductService.ProductServiceImpl.constructor` | src/main/kotlin/java_test/domain/product/ProductServiceImpl.kt:13-16 | the service holds the given repository; over an empty store the store invariant holds from the start |
| `ProductService.ProductServiceImpl.CreateProduct` | src/main/kotlin/java_test/domain/product/ProductServiceImpl.kt:19-34 | result and new store are those of `CreateStep` on the old store; the store invariant is preserved |
| `ProductService.ProductServiceImpl.GetProductSku` | src/main/kotlin/java_test/domain/product/ProductServiceImpl.kt:36-42 | returns exactly the stored record or NotFound(sku); it modifies nothing |
| `ProductService.ProductServiceImpl.UpdateProductSku` | src/main/kotlin/java_test/domain/product/ProductServiceImpl.kt:44-61 | result and new store are those of `UpdateStep` on the old store; the store invariant is preserved |
| `ProductService.ProductServiceImpl.DeleteProductSku` | src/main/kotlin/java_test/domain/product/ProductServiceImpl.kt:63-73 | result and new store are those of `DeleteStep` on the old store; the store invariant is preserved |
| `ProductService.CreatePreservesInvariant` | src/main/kotlin/java_test/domain/product/ProductServiceImpl.kt:27-33 | create keeps records keyed by their sku with consistent derived fields, and touches only `request.sku` |
| `ProductService.UpdatePreservesInvariant` | src/main/kotlin/java_test/domain/product/ProductServiceImpl.kt:51-60 | update keeps records keyed by their sku with consistent derived fields |
| `ProductService.DeletePreservesInvariant` | src/main/kotlin/java_test/domain/product/ProductServiceImpl.kt:66-70 | delete keeps the store invariant |
| `ProductService.UpdateTouchesOnlyItsKey` | src/main/kotlin/java_test/domain/product/ProductServiceImpl.kt:53-60 | when records are keyed by their sku, update writes back under the path sku and changes no other key |
| `ProductService.UpdateIgnoresRequestIdentity` | src/main/kotlin/java_test/domain/product/ProductServiceImpl.kt:51-59 | update depends on the request only through its inventory: the request's sku and name are ignored |
| `ProductService.ReadAfterCreate` | src/main/kotlin/java_test/domain/product/ProductServiceImpl.kt:19-42 | after a successful create, reading the sku returns the created record |
| `ProductService.CreateTwiceConflicts` | src/main/kotlin/java_test/domain/product/ProductServiceImpl.kt:22-25 | creating the same sku a second time fails with Conflict and leaves the store unchanged |
| `ProductService.NotFoundSymmetry` | src/main/kotlin/java_test/domain/product/ProductServiceImpl.kt:39-68 | read, update and delete of an absent sku all fail with NotFound(sku) and leave the store unchanged |
| `ProductService.DeleteThenRecreate` | src/main/kotlin/java_test/domain/product/ProductServiceImpl.kt:19-73 | after deleting a sku, reading it fails with NotFound and creating it again succeeds |
| `ServiceScenarios.SumOfExamples` | src/test/kotlin/java_test/domain/product/ProductServiceImplTest.kt:36-47 | the totals of the test's warehouse lists: 10, and 10 + 5 = 15 |
| `ServiceScenarios.ConflictReasonExample` | src/test/kotlin/java_test/domain/product/ProductServiceImplTest.kt:97 | the conflict reason for sku 123 is exactly "f=createProduct(), Product already exists, sku=123" |
| `ServiceScenarios.NotFoundReasonExample` | src/test/kotlin/java_test/domain/product/ProductServiceImplTest.kt:134 | the not-found reason for sku 999 is exactly "Product not found, sku=999!" |
| `ServiceScenarios.CreateProductSucceeds` | src/test/kotlin/java_test/domain/product/ProductServiceImplTest.kt:29-69 | creating sku 123 with stock 10 + 5 returns the record with total 15, both warehouses, marketable |
| `ServiceScenarios.CreateExistingConflicts` | src/test/kotlin/java_test/domain/product/ProductServiceImplTest.kt:71-99 | a second create of sku 123 fails with Conflict(123) and reason "f=createProduct(), Product already exists, sku=123" |
| `ServiceScenarios.GetStoredProduct` | src/test/kotlin/java_test/domain/product/ProductServiceImplTest.kt:101-122 | reading sku 123 returns the stored record (total 10, marketable) |
| `ServiceScenarios.AbsentSkuNotFound` | src/test/kotlin/java_test/domain/product/ProductServiceImplTest.kt:124-246 | read, update and delete of sku 999 on an empty store fail with NotFound(999), reason "Product not found, sku=999!" |
| `ServiceScenarios.UpdateRecomputesInventory` | src/test/kotlin/java_test/domain/product/ProductServiceImplTest.kt:138-190 | updating sku 123 (total 10) with stock 10 + 5 keeps sku and name and returns total 15, marketable |
| `ServiceScenarios.DeleteThenRecreateSucceeds` | src/test/kotlin/java_test/domain/product/ProductServiceImplTest.kt:213-232 | deleting sku 123 returns true; a later read fails with NotFound(123) and a later create succeeds |

## Left out

- HTTP routing (`ProductRestController.kt`) and process bootstrap (`JavaTestApplication.kt`): they only delegate to the service or start the framework.
- HTTP status codes (409, 404): the error kind stands for them. The reason texts are modelled.
- Logging calls in the service: side effects with no bearing on results.
- JSON (de)serialisation and its annotations.
- Concurrency: the repository is a process-wide singleton map with no locking. The model is sequential, and the repository is an explicit object handed to the service.
- Object identity: `buildProductResponse` builds fresh `WarehouseDto` objects. Data classes compare by value, and the model has only values.
- The source file of `WarehouseTypeEnum` is not available; `Dto.WarehouseType` models it with the two constants ECOMMERCE and PHYSICAL_STORE, inferred from their use in the service tests.
- The tests' mocking scaffolding: the scenarios replay the tests against a real repository instead.

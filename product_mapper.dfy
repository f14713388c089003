/**
 * `ProductMapper`: the two `toProductResponseDto` overloads. Each builds a
 * product record from an identity source (a request, or a previously stored
 * record) plus an already computed warehouse list, total and flag.
 */
module ProductMapper {
  import opened Dto

  /** `toProductResponseDto(product: ProductRequestDto, ...)`. */
  function FromRequest(product: ProductRequest, warehouseList: seq<Warehouse>, inventoryQuantity: Int32, isMarketable: bool): (r: ProductResponse)
    ensures r.sku == product.sku && r.name == product.name
    ensures r.inventory.quantity == inventoryQuantity && r.inventory.warehouses == warehouseList
    ensures r.isMarketable == isMarketable
  {
    ProductResponse(product.sku, product.name, InventoryResponse(inventoryQuantity, warehouseList), isMarketable)
  }

  /** `toProductResponseDto(product: ProductResponseDto, ...)`: the prior record's inventory and flag are discarded. */
  function FromResponse(product: ProductResponse, warehouseList: seq<Warehouse>, inventoryQuantity: Int32, isMarketable: bool): (r: ProductResponse)
    ensures r.sku == product.sku && r.name == product.name
    ensures r.inventory.quantity == inventoryQuantity && r.inventory.warehouses == warehouseList
    ensures r.isMarketable == isMarketable
  {
    ProductResponse(product.sku, product.name, InventoryResponse(inventoryQuantity, warehouseList), isMarketable)
  }

  /** The two overloads agree whenever their sources carry the same sku and name. */
  lemma OverloadsAgree(request: ProductRequest, prior: ProductResponse, warehouseList: seq<Warehouse>, inventoryQuantity: Int32, isMarketable: bool)
    requires request.sku == prior.sku && request.name == prior.name
    ensures FromRequest(request, warehouseList, inventoryQuantity, isMarketable)
         == FromResponse(prior, warehouseList, inventoryQuantity, isMarketable)
  {
  }

  /** The response overload uses the prior record only through its sku and name: its old inventory and flag are discarded. */
  lemma FromResponseUsesOnlyIdentity(p: ProductResponse, q: ProductResponse, warehouseList: seq<Warehouse>, inventoryQuantity: Int32, isMarketable: bool)
    requires p.sku == q.sku && p.name == q.name
    ensures FromResponse(p, warehouseList, inventoryQuantity, isMarketable)
         == FromResponse(q, warehouseList, inventoryQuantity, isMarketable)
  {
  }
}

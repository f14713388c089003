/**
 * The data-transfer records of the product domain. All of them are Kotlin
 * `data class`es with `val` fields: immutable values, compared structurally.
 */
module Dto {

  /** Kotlin's `Int`: a 32-bit two's-complement integer. */
  type Int32 = x: int | -0x8000_0000 <= x < 0x8000_0000

  /** `WarehouseTypeEnum`: the two kinds of stock location. */
  datatype WarehouseType = Ecommerce | PhysicalStore

  /** `WarehouseDto`: the stock held at one location. */
  datatype Warehouse = Warehouse(locality: string, quantity: Int32, warehouseType: WarehouseType)

  /** `InventoryRequestDto`: the warehouse list sent by a client (empty by default). */
  datatype InventoryRequest = InventoryRequest(warehouses: seq<Warehouse> := [])

  /** `ProductRequestDto`: the body of a create or update call. */
  datatype ProductRequest = ProductRequest(sku: Int32, name: string, inventory: InventoryRequest)

  /** `InventoryResponseDto`: the warehouse list together with its derived total. */
  datatype InventoryResponse = InventoryResponse(quantity: Int32, warehouses: seq<Warehouse>)

  /** `ProductResponseDto`: the stored product record, also what the service returns. */
  datatype ProductResponse = ProductResponse(sku: Int32, name: string, inventory: InventoryResponse, isMarketable: bool)
}

/** The catalog and order entities of `src/lib/EXAMPLE_DATA/types.ts`.
    Prices and totals are integers (cents). Rows sent to the bulk upsert
    stay plain records (`Json.Record`); the typed entities below are what
    the order rules read. */
module DataTypes {
  import opened Wrappers

  /** The conflict column of the Products table and the properties the
      deduplication ignores. */
  const ProductUniqueProp := "sku"
  const ProductNonuniqueProps: set<string> :=
    {"name", "description", "price", "category_id", "stock_quantity", "is_active", "image_url", "metadata"}
  /** Every property a `Product_Schema` row may carry. */
  const ProductSchemaProps: set<string> := {"id", "created_at", ProductUniqueProp} + ProductNonuniqueProps

  const CategoryUniqueProp := "slug"
  const CategoryNonuniqueProps: set<string> := {"name", "parent_id", "description", "sort_order"}
  const CategorySchemaProps: set<string> := {"id", "created_at", CategoryUniqueProp} + CategoryNonuniqueProps

  /** A stored product as the order rules read it. */
  datatype Product = Product(
    name: string, description: string, price: int, categoryId: int, sku: string,
    stockQuantity: Option<int>, isActive: Option<bool>)

  /** `Partial<Product_Schema>` as far as product validation reads it. */
  datatype ProductDraft = ProductDraft(
    name: Option<string>, sku: Option<string>, price: Option<int>,
    categoryId: Option<int>, stockQuantity: Option<int>)

  /** An order; `status` is one of the `Order_Status` names. */
  datatype Order = Order(userId: string, status: string, totalAmount: int, currency: string)

  /** An order line; `orderId` is absent until the order exists. */
  datatype OrderItem = OrderItem(
    orderId: Option<int>, productId: int, quantity: int, unitPrice: int, totalPrice: int, productName: string)

  /** One entry of a shopping cart. */
  datatype CartItem = CartItem(productId: int, quantity: int)
}

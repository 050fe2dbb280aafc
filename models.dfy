/**
 * The store's database records: products (the catalog), orders with their
 * line items, and the wishlist table, all held by one `Database` object whose
 * fields the views update in place.
 */
module Models {

  type ProductId = nat
  type UserId = nat
  type OrderId = nat

  /** Money in integer cents; the source keeps prices as exact two-place decimals. */
  type Cents = int

  /** The order total from which shipping is free (50.00). */
  const FreeShippingThreshold: Cents := 5000

  datatype Product = Product(name: string, slug: string, price: Cents, stock: int, available: bool)

  /** The product table, keyed by product id. */
  type Catalog = map<ProductId, Product>

  /** The database keeps every stock counter at zero or above. */
  predicate StockNonNegative(catalog: Catalog)
  {
    forall id :: id in catalog ==> catalog[id].stock >= 0
  }

  /** A product the cart and checkout still offer: it exists, is available and has stock. */
  predicate Purchasable(catalog: Catalog, id: ProductId)
    ensures Purchasable(catalog, id) ==> id in catalog && catalog[id].stock >= 1
  {
    id in catalog && catalog[id].available && catalog[id].stock > 0
  }

  /** Order lifecycle; checkout only ever creates `Pending` orders. */
  datatype Status = Pending | Paid | Shipped | Delivered | Cancelled

  /** The contact and shipping fields posted with the checkout form. */
  datatype Contact = Contact(firstName: string, lastName: string, email: string,
                             address: string, postalCode: string, city: string)

  /** A line item: the product, the unit price recorded at purchase and the quantity. */
  datatype OrderItem = OrderItem(product: ProductId, price: Cents, quantity: int)

  datatype Order = Order(owner: UserId, contact: Contact, status: Status, paid: bool,
                         createdAt: nat, items: seq<OrderItem>)

  /** The sum of `price * quantity` over an order's line items. */
  function OrderItemsTotal(items: seq<OrderItem>): Cents
  {
    if items == [] then 0
    else OrderItemsTotal(items[..|items| - 1]) + items[|items| - 1].price * items[|items| - 1].quantity
  }

  /** The rows the views read and write: products, orders and wishlist pairs. */
  class Database {
    var products: Catalog
    var orders: map<OrderId, Order>
    /** The id the next created order receives (an auto-increment key). */
    var nextOrderId: OrderId
    var wishlist: set<(UserId, ProductId)>

    ghost predicate Valid()
      reads this
    {
      && StockNonNegative(products)
      && (forall id :: id in orders ==> id < nextOrderId)
    }
  }
}

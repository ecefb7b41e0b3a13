/** The service layer of `src/lib/EXAMPLE_DATA/service.ts`: the bulk
    upserts that write the server ids back into the caller's rows, order
    creation, and cart validation. Every service function catches what its
    callees throw and rethrows an `App_Error` with one more SERVICE frame,
    except that a thrown `undefined` or `null` makes the catch clause itself
    throw. The database calls other than the bulk upserts are parameters. */
module DataService {
  import opened Wrappers
  import opened Json
  import opened Text
  import opened CoreErrors
  import opened CoreUtils
  import opened DataTypes
  import opened DataUtils
  import opened DataDal

  // ------------------------------------------------------------ catch clause

  /** A thrown `undefined` or `null`: reading `.message` of it throws. */
  predicate Nullish(e: Thrown) {
    e.Undefined? || e.NullValue?
  }

  /** The `TypeError` that `(e as Error).message` throws when `e` is
      `undefined` or `null`, with the engine's message text. */
  function ReadMessageTypeError(e: Thrown): Thrown {
    Foreign(Some("Cannot read properties of " + (if e.NullValue? then "null" else "undefined") + " (reading 'message')"))
  }

  /** The shared catch clause: an `App_Error` gets `frame` pushed on it;
      anything else becomes a fresh chain whose one frame is
      `unexpected_error` with the thrown value's message and the operation.
      For a thrown `undefined` or `null` the clause itself throws while
      reading `.message`, and that `TypeError` leaves the function instead. */
  function ServiceCatch(e: Thrown, frame: Frame, operation: string, now: string): (t: Thrown)
    ensures t.AppErr? <==> !Nullish(e)
    ensures t.AppErr? ==> |t.error.frames| >= 1
    ensures Nullish(e) ==> t.Foreign? && t.message.Some?
  {
    if IsAppError(e) then AppErr(PushErrorFrame(e.error, frame, now))
    else if Nullish(e) then ReadMessageTypeError(e)
    else AppErr(CreateAppError(Frame(SERVICE, "unexpected_error", MessageOf(e), map["operation" := Str(operation)], None), now, e))
  }

  /** The service's frame is reported to the user for an `App_Error`, and
      no frame of the callee is lost; any other value is wrapped with the
      code `unexpected_error`, its own message and the caught value as the
      origin; `undefined` and `null` escape as the `TypeError`. */
  lemma ServiceCatchMeaning(e: Thrown, frame: Frame, operation: string, now: string)
    ensures IsAppError(e) ==>
      && ServiceCatch(e, frame, operation, now).error.frames[..|e.error.frames|] == e.error.frames
      && ErrorCode(ServiceCatch(e, frame, operation, now).error) == frame.code
      && UserFriendlyMessage(ServiceCatch(e, frame, operation, now).error) == OrElse(frame.message, DefaultUserMessage)
      && ServiceCatch(e, frame, operation, now).error.origin == e.error.origin
    ensures !IsAppError(e) && !Nullish(e) ==>
      && |ServiceCatch(e, frame, operation, now).error.frames| == 1
      && ErrorCode(ServiceCatch(e, frame, operation, now).error) == "unexpected_error"
      && ServiceCatch(e, frame, operation, now).error.frames[0].message == MessageOf(e)
      && ServiceCatch(e, frame, operation, now).error.frames[0].context == map["operation" := Str(operation)]
      && ServiceCatch(e, frame, operation, now).error.origin == e
    ensures Nullish(e) ==> ServiceCatch(e, frame, operation, now) == ReadMessageTypeError(e)
  {
    if IsAppError(e) {
      PushedFrameIsUserFacing(e.error, frame, now);
    }
  }

  // ---------------------------------------------------- id write-back

  /** Every `id` the rows carry is a number, as `Partial<..._Schema>` says. */
  predicate NumericIds(rows: seq<Record>) {
    forall i :: 0 <= i < |rows| && "id" in rows[i] ==> rows[i]["id"].Num?
  }

  /** Whether the loop rewrites the row's id: only a negative id, the
      client's temporary id, is rewritten; an absent or zero id is falsy,
      and a positive id is already the server's. */
  predicate HasTemporaryId(row: Record) {
    "id" in row && row["id"].Num? && row["id"].n < 0
  }

  /** One iteration of the write-back loop. A temporary id the map lacks
      would be set to `undefined`; the row then has no id. */
  function RemapRow(row: Record, idMap: map<Value, int>): (r: Record)
    ensures r - {"id"} == row - {"id"}
    ensures !HasTemporaryId(row) ==> r == row
  {
    if !HasTemporaryId(row) then row
    else if row["id"] in idMap then row["id" := Num(idMap[row["id"]])]
    else row - {"id"}
  }

  function RemapAll(rows: seq<Record>, idMap: map<Value, int>): (r: seq<Record>)
    ensures |r| == |rows|
    ensures forall i :: 0 <= i < |rows| ==> r[i] == RemapRow(rows[i], idMap)
  {
    seq(|rows|, i requires 0 <= i < |rows| => RemapRow(rows[i], idMap))
  }

  /** The server ids of the first `n` positions of a successful upsert. */
  function ServerIds(ids: seq<Option<int>>, n: int): (r: seq<int>)
    requires 0 <= n <= |ids|
    requires forall i :: 0 <= i < n ==> ids[i].Some?
    ensures |r| == n
    ensures forall i :: 0 <= i < n ==> ids[i] == Some(r[i])
  {
    seq(n, i requires 0 <= i < n => ids[i].value)
  }

  /** map_from_id_to_id followed by the write-back loop, over the caller's array. */
  method ResolveTemporaryIds(rows: array<Record>, ids: seq<int>)
    requires |ids| >= rows.Length
    requires NumericIds(rows[..])
    modifies rows
    ensures rows[..] == RemapAll(old(rows[..]), IdMap(old(rows[..]), ids, rows.Length))
  {
    var idMap := MapFromIdToId(rows[..], ids);
    ghost var before := rows[..];
    var i := 0;
    while i < rows.Length
      invariant 0 <= i <= rows.Length
      invariant forall j :: 0 <= j < i ==> rows[j] == RemapRow(before[j], idMap)
      invariant forall j :: i <= j < rows.Length ==> rows[j] == before[j]
    {
      var row := rows[i];
      if !("id" in row && Truthy(row["id"])) {
      } else if row["id"].Num? && row["id"].n > 0 {
      } else if row["id"] in idMap {
        rows[i] := row["id" := Num(idMap[row["id"]])];
      } else {
        rows[i] := row - {"id"};
      }
      i := i + 1;
    }
  }

  /** A row with a temporary id receives the server id at the LAST position
      that carries the same temporary id, provided the server ids are
      positive (so none of them coincides with a temporary id). */
  lemma RemapResolvesToLastCarrier(rows: seq<Record>, ids: seq<int>, i: int, last: int)
    requires |ids| >= |rows|
    requires forall j :: 0 <= j < |rows| ==> ids[j] > 0
    requires 0 <= i <= last < |rows| && HasTemporaryId(rows[i])
    requires "id" in rows[last] && rows[last]["id"] == rows[i]["id"]
    requires forall j :: last < j < |rows| ==> !("id" in rows[j] && rows[j]["id"] == rows[i]["id"])
    ensures RemapAll(rows, IdMap(rows, ids, |rows|))[i] == rows[i]["id" := Num(ids[last])]
  {
    var t := rows[i]["id"];
    assert WritesKey(rows, ids, last, t);
    forall j | last < j < |rows| ensures !WritesKey(rows, ids, j, t) {
      assert Num(ids[j]) != t;
    }
    IdMapLastWriteWins(rows, ids, |rows|, last, t);
  }

  // ------------------------------------------------------------ bulk upserts

  function UpsertProductsFrame(count: int): Frame {
    Frame(SERVICE, "upsert_products_service_failed", Some("Product upsert service failed"), map["count" := Num(count)], None)
  }

  function UpsertCategoriesFrame(count: int): Frame {
    Frame(SERVICE, "upsert_categories_service_failed", Some("Category upsert service failed"), map["count" := Num(count)], None)
  }

  /** ESERVICE_upsert_products. On failure the rows are untouched and the
      error carries one more frame; on success the DAL's ids are returned
      and every temporary id in the caller's rows is replaced. */
  method UpsertProducts(products: array<Record>, store: seq<Record> -> StoreReply, now: string)
    returns (r: Result<seq<Option<int>>, Thrown>)
    requires NumericIds(products[..])
    modifies products
    ensures ProductsOutcome(old(products[..]), store, now).Failure? ==>
      && r == Failure(ServiceCatch(ProductsOutcome(old(products[..]), store, now).error,
                                   UpsertProductsFrame(products.Length), "upsert_products", now))
      && products[..] == old(products[..])
    ensures ProductsOutcome(old(products[..]), store, now).Success? ==>
      && r == ProductsOutcome(old(products[..]), store, now)
      && products[..] == RemapAll(old(products[..]),
           IdMap(old(products[..]), ServerIds(r.value, products.Length), products.Length))
  {
    var dal := DataDal.UpsertProducts(products, store, now);
    if dal.Failure? {
      return Failure(ServiceCatch(dal.error, UpsertProductsFrame(products.Length), "upsert_products", now));
    }
    ResolveTemporaryIds(products, ServerIds(dal.value, products.Length));
    r := dal;
  }

  /** ESERVICE_upsert_categories, the same pipeline over categories. */
  method UpsertCategories(categories: array<Record>, store: seq<Record> -> StoreReply, now: string)
    returns (r: Result<seq<Option<int>>, Thrown>)
    requires NumericIds(categories[..])
    modifies categories
    ensures CategoriesOutcome(old(categories[..]), store, now).Failure? ==>
      && r == Failure(ServiceCatch(CategoriesOutcome(old(categories[..]), store, now).error,
                                   UpsertCategoriesFrame(categories.Length), "upsert_categories", now))
      && categories[..] == old(categories[..])
    ensures CategoriesOutcome(old(categories[..]), store, now).Success? ==>
      && r == CategoriesOutcome(old(categories[..]), store, now)
      && categories[..] == RemapAll(old(categories[..]),
           IdMap(old(categories[..]), ServerIds(r.value, categories.Length), categories.Length))
  {
    var dal := DataDal.UpsertCategories(categories, store, now);
    if dal.Failure? {
      return Failure(ServiceCatch(dal.error, UpsertCategoriesFrame(categories.Length), "upsert_categories", now));
    }
    ResolveTemporaryIds(categories, ServerIds(dal.value, categories.Length));
    r := dal;
  }

  /** End to end: when the store keeps its contract and hands out positive
      ids, a product whose temporary id no later product repeats ends up
      with the id the store gave to its deduplication group. */
  lemma TemporaryIdGetsItsGroupsId(rows: seq<Record>, store: seq<Record> -> StoreReply, storeIds: seq<int>,
                                   now: string, i: int)
    requires StoreContract(store)
    requires store(Submitted(rows, ProductNonuniqueProps)) == Inserted(storeIds)
    requires forall j :: 0 <= j < |storeIds| ==> storeIds[j] > 0
    requires 0 <= i < |rows| && HasTemporaryId(rows[i])
    requires forall j :: i < j < |rows| ==> !("id" in rows[j] && rows[j]["id"] == rows[i]["id"])
    ensures ProductsOutcome(rows, store, now).Success?
    ensures |ProductsOutcome(rows, store, now).value| == |rows|
    ensures RemapAll(rows, IdMap(rows, ServerIds(ProductsOutcome(rows, store, now).value, |rows|), |rows|))[i]
         == rows[i]["id" := Num(storeIds[Slot(rows, ProductNonuniqueProps, i)])]
  {
    UpsertSucceedsUnderStoreContract(rows, ProductNonuniqueProps, store, storeIds,
                                     "upsert_products_failed", "Failed to upsert products", now);
    var ids := ServerIds(ProductsOutcome(rows, store, now).value, |rows|);
    forall j | 0 <= j < |rows| ensures ids[j] > 0 {
      assert ids[j] == storeIds[Slot(rows, ProductNonuniqueProps, j)];
    }
    RemapResolvesToLastCarrier(rows, ids, i, i);
  }

  // ------------------------------------------------------------ orders

  /** Every item gets the new order's id; nothing else about it changes. */
  function StampOrderId(items: seq<OrderItem>, orderId: int): (r: seq<OrderItem>)
    ensures |r| == |items|
    ensures forall i :: 0 <= i < |items| ==>
      r[i].orderId == Some(orderId) && r[i].(orderId := items[i].orderId) == items[i]
  {
    seq(|items|, i requires 0 <= i < |items| => items[i].(orderId := Some(orderId)))
  }

  function CreateOrderFrame(order: Order, itemCount: int): Frame {
    Frame(SERVICE, "create_order_service_failed", Some("Failed to create order with items"),
          map["user_id" := Str(order.userId), "item_count" := Num(itemCount)], None)
  }

  /** What the two DAL calls of ESERVICE_create_order_with_items throw:
      DAL_create_order's error, or else DAL_insert_order_items's, if any. */
  function OrderDalThrown(order: Order, items: seq<OrderItem>, createOrder: Order -> Result<int, Thrown>,
                          insertItems: seq<OrderItem> -> Option<Thrown>): Option<Thrown> {
    if createOrder(order).Failure? then Some(createOrder(order).error)
    else insertItems(StampOrderId(items, createOrder(order).value))
  }

  /** ESERVICE_create_order_with_items. `createOrder` is DAL_create_order
      (the new order's id, or what it throws) and `insertItems` is
      DAL_insert_order_items (what it throws, if anything). */
  function CreateOrderWithItems(order: Order, items: seq<OrderItem>, createOrder: Order -> Result<int, Thrown>,
                                insertItems: seq<OrderItem> -> Option<Thrown>, now: string): (r: Result<int, Thrown>)
    ensures r.Success? <==>
      createOrder(order).Success? && insertItems(StampOrderId(items, createOrder(order).value)).None?
    ensures r.Success? ==> r.value == createOrder(order).value
    ensures r.Failure? ==>
      OrderDalThrown(order, items, createOrder, insertItems).Some?
      && (r.error.AppErr? <==> !Nullish(OrderDalThrown(order, items, createOrder, insertItems).value))
    ensures r.Failure? && r.error.AppErr? ==> |r.error.error.frames| >= 1
  {
    match createOrder(order)
    case Failure(e) => Failure(ServiceCatch(e, CreateOrderFrame(order, |items|), "create_order_with_items", now))
    case Success(orderId) =>
      match insertItems(StampOrderId(items, orderId))
      case Some(e) => Failure(ServiceCatch(e, CreateOrderFrame(order, |items|), "create_order_with_items", now))
      case None => Success(orderId)
  }

  /** A DAL call throwing `undefined` or `null` makes the catch clause throw
      the `TypeError` of reading its `.message`, with no service frame. */
  lemma CreateOrderNullishEscapes(order: Order, items: seq<OrderItem>, createOrder: Order -> Result<int, Thrown>,
                                  insertItems: seq<OrderItem> -> Option<Thrown>, now: string, e: Thrown)
    requires OrderDalThrown(order, items, createOrder, insertItems) == Some(e) && Nullish(e)
    ensures CreateOrderWithItems(order, items, createOrder, insertItems, now) == Failure(ReadMessageTypeError(e))
  {
    ServiceCatchMeaning(e, CreateOrderFrame(order, |items|), "create_order_with_items", now);
  }

  /** A failure of either insert surfaces with this service's code, and the
      DAL frames below it are kept. */
  lemma CreateOrderFailureIsReported(order: Order, items: seq<OrderItem>, createOrder: Order -> Result<int, Thrown>,
                                     insertItems: seq<OrderItem> -> Option<Thrown>, now: string, e: Thrown)
    requires IsAppError(e)
    requires createOrder(order) == Failure(e)
          || (createOrder(order).Success? && insertItems(StampOrderId(items, createOrder(order).value)) == Some(e))
    ensures CreateOrderWithItems(order, items, createOrder, insertItems, now).Failure?
    ensures ErrorCode(CreateOrderWithItems(order, items, createOrder, insertItems, now).error.error) == "create_order_service_failed"
    ensures CreateOrderWithItems(order, items, createOrder, insertItems, now).error.error.frames[..|e.error.frames|] == e.error.frames
  {
    ServiceCatchMeaning(e, CreateOrderFrame(order, |items|), "create_order_with_items", now);
  }

  // ------------------------------------------------------------ cart validation

  /** A service frame raised by the cart checks (create_app_error, no origin). */
  function Rejection(code: string, message: string, context: Record, now: string): Thrown {
    AppErr(CreateAppError(Frame(SERVICE, code, Some(message), context, None), now, Undefined))
  }

  const CartRejectionCodes: set<string> := {"product_not_found", "product_not_available", "insufficient_stock"}

  /** One cart entry checked against DAL_get_product_by_id (`fetch`: the
      product, `None` for a missing one, or what the lookup throws), made
      into an order line when it passes. */
  function CheckItem(c: CartItem, fetch: int -> Result<Option<Product>, Thrown>, now: string): Result<OrderItem, Thrown> {
    match fetch(c.productId)
    case Failure(e) => Failure(e)
    case Success(None) =>
      Failure(Rejection("product_not_found", "Product " + IntToString(c.productId) + " not found",
                        map["product_id" := Num(c.productId)], now))
    case Success(Some(p)) =>
      if p.isActive != Some(true) then
        Failure(Rejection("product_not_available", "Product " + p.name + " is not available",
                          map["product_id" := Num(c.productId)], now))
      else if p.stockQuantity.Some? && p.stockQuantity.value < c.quantity then
        Failure(Rejection("insufficient_stock", "Insufficient stock for " + p.name,
                          map["product_id" := Num(c.productId), "requested" := Num(c.quantity),
                              "available" := Num(p.stockQuantity.value)], now))
      else
        Success(OrderItem(None, c.productId, c.quantity, p.price, p.price * c.quantity, p.name))
  }

  /** A cart entry passes exactly when its product exists, is active and is
      in stock for the requested quantity (EUTIL_is_product_in_stock); the
      line then copies the product's price and prices the quantity. A
      rejection by the checks themselves is a one-frame chain with one of
      the three cart codes. */
  lemma CheckItemMeaning(c: CartItem, fetch: int -> Result<Option<Product>, Thrown>, now: string)
    ensures CheckItem(c, fetch, now).Success? <==>
      && fetch(c.productId).Success? && fetch(c.productId).value.Some?
      && fetch(c.productId).value.value.isActive == Some(true)
      && IsProductInStock(fetch(c.productId).value.value, c.quantity)
    ensures CheckItem(c, fetch, now).Success? ==>
      && CheckItem(c, fetch, now).value.productId == c.productId
      && CheckItem(c, fetch, now).value.quantity == c.quantity
      && CheckItem(c, fetch, now).value.unitPrice == fetch(c.productId).value.value.price
      && CheckItem(c, fetch, now).value.productName == fetch(c.productId).value.value.name
      && CheckItem(c, fetch, now).value.totalPrice == CheckItem(c, fetch, now).value.unitPrice * c.quantity
      && CheckItem(c, fetch, now).value.orderId.None?
    ensures CheckItem(c, fetch, now).Failure? && fetch(c.productId).Success? ==>
      && CheckItem(c, fetch, now).error.AppErr?
      && CheckItem(c, fetch, now).error.error.frames[0].layer == SERVICE
      && |CheckItem(c, fetch, now).error.error.frames| == 1
      && ErrorCode(CheckItem(c, fetch, now).error.error) in CartRejectionCodes
    ensures CheckItem(c, fetch, now).Failure? && fetch(c.productId).Failure? ==>
      CheckItem(c, fetch, now).error == fetch(c.productId).error
  {
  }

  /** The result of the loop over the cart: the lines and the running
      total, or the first error thrown. */
  datatype Checked = Accepted(lines: seq<OrderItem>, total: int) | Rejected(error: Thrown)

  function CheckCart(cart: seq<CartItem>, fetch: int -> Result<Option<Product>, Thrown>, now: string): Checked {
    if cart == [] then Accepted([], 0)
    else
      match CheckCart(cart[..|cart| - 1], fetch, now)
      case Rejected(e) => Rejected(e)
      case Accepted(lines, total) =>
        match CheckItem(cart[|cart| - 1], fetch, now)
        case Failure(e) => Rejected(e)
        case Success(line) => Accepted(lines + [line], total + line.totalPrice)
  }

  /** An accepted cart yields one line per entry, in cart order, and the
      running total is EUTIL_calculate_order_total of the lines. */
  lemma {:induction false} AcceptedCartMeaning(cart: seq<CartItem>, fetch: int -> Result<Option<Product>, Thrown>, now: string)
    requires CheckCart(cart, fetch, now).Accepted?
    ensures |CheckCart(cart, fetch, now).lines| == |cart|
    ensures forall k :: 0 <= k < |cart| ==> CheckItem(cart[k], fetch, now) == Success(CheckCart(cart, fetch, now).lines[k])
    ensures CheckCart(cart, fetch, now).total == CalculateOrderTotal(CheckCart(cart, fetch, now).lines)
  {
    if cart != [] {
      var init := cart[..|cart| - 1];
      AcceptedCartMeaning(init, fetch, now);
      var prev := CheckCart(init, fetch, now).lines;
      var line := CheckItem(cart[|cart| - 1], fetch, now).value;
      CheckItemMeaning(cart[|cart| - 1], fetch, now);
      OrderTotalAppend(prev, [line]);
    }
  }

  /** The cart is rejected exactly when some entry fails, and the error is
      the one of the first failing entry: the loop stops there. */
  lemma {:induction false} FirstFailureRejectsCart(cart: seq<CartItem>, fetch: int -> Result<Option<Product>, Thrown>, now: string, k: int)
    requires 0 <= k < |cart| && CheckItem(cart[k], fetch, now).Failure?
    requires forall j :: 0 <= j < k ==> CheckItem(cart[j], fetch, now).Success?
    ensures CheckCart(cart, fetch, now) == Rejected(CheckItem(cart[k], fetch, now).error)
  {
    var init := cart[..|cart| - 1];
    if k < |cart| - 1 {
      FirstFailureRejectsCart(init, fetch, now, k);
    } else {
      AllPassAccepts(init, fetch, now);
    }
  }

  lemma {:induction false} AllPassAccepts(cart: seq<CartItem>, fetch: int -> Result<Option<Product>, Thrown>, now: string)
    requires forall j :: 0 <= j < |cart| ==> CheckItem(cart[j], fetch, now).Success?
    ensures CheckCart(cart, fetch, now).Accepted?
  {
    if cart != [] {
      AllPassAccepts(cart[..|cart| - 1], fetch, now);
    }
  }

  function ValidateFrame(userId: string, itemCount: int): Frame {
    Frame(SERVICE, "validate_and_create_order_failed", Some("Order validation and creation failed"),
          map["user_id" := Str(userId), "item_count" := Num(itemCount)], None)
  }

  /** What ESERVICE_validate_and_create_order returns or throws. */
  function OrderOutcome(userId: string, cart: seq<CartItem>, fetch: int -> Result<Option<Product>, Thrown>,
                        createOrder: Order -> Result<int, Thrown>, insertItems: seq<OrderItem> -> Option<Thrown>,
                        now: string): Result<int, Thrown>
  {
    match CheckCart(cart, fetch, now)
    case Rejected(e) => Failure(ServiceCatch(e, ValidateFrame(userId, |cart|), "validate_and_create_order", now))
    case Accepted(lines, total) =>
      AfterCreate(CreateOrderWithItems(Order(userId, "pending", total, "USD"), lines, createOrder, insertItems, now),
                  userId, |cart|, now)
  }

  /** The catch clause applied to what ESERVICE_create_order_with_items gave. */
  function AfterCreate(created: Result<int, Thrown>, userId: string, itemCount: int, now: string): Result<int, Thrown> {
    if created.Success? then created
    else Failure(ServiceCatch(created.error, ValidateFrame(userId, itemCount), "validate_and_create_order", now))
  }

  /** ESERVICE_validate_and_create_order. */
  method ValidateAndCreateOrder(userId: string, cart: seq<CartItem>, fetch: int -> Result<Option<Product>, Thrown>,
                                createOrder: Order -> Result<int, Thrown>, insertItems: seq<OrderItem> -> Option<Thrown>,
                                now: string) returns (r: Result<int, Thrown>)
    ensures r == OrderOutcome(userId, cart, fetch, createOrder, insertItems, now)
  {
    var lines: seq<OrderItem> := [];
    var total := 0;
    var i := 0;
    while i < |cart|
      invariant 0 <= i <= |cart|
      invariant CheckCart(cart[..i], fetch, now) == Accepted(lines, total)
    {
      var item := cart[i];
      assert cart[..i + 1][..i] == cart[..i];
      var thrown: Option<Thrown> := None;
      var found := fetch(item.productId);
      if found.Failure? {
        thrown := Some(found.error);
      } else if found.value.None? {
        thrown := Some(Rejection("product_not_found", "Product " + IntToString(item.productId) + " not found",
                                 map["product_id" := Num(item.productId)], now));
      } else {
        var product := found.value.value;
        if product.isActive != Some(true) {
          thrown := Some(Rejection("product_not_available", "Product " + product.name + " is not available",
                                   map["product_id" := Num(item.productId)], now));
        } else if product.stockQuantity.Some? && product.stockQuantity.value < item.quantity {
          thrown := Some(Rejection("insufficient_stock", "Insufficient stock for " + product.name,
                                   map["product_id" := Num(item.productId), "requested" := Num(item.quantity),
                                       "available" := Num(product.stockQuantity.value)], now));
        } else {
          var itemTotal := product.price * item.quantity;
          lines := lines + [OrderItem(None, item.productId, item.quantity, product.price, itemTotal, product.name)];
          total := total + itemTotal;
        }
      }
      if thrown.Some? {
        assert CheckCart(cart[..i + 1], fetch, now) == Rejected(thrown.value);
        RejectionIsFinal(cart, fetch, now, i + 1);
        return Failure(ServiceCatch(thrown.value, ValidateFrame(userId, |cart|), "validate_and_create_order", now));
      }
      i := i + 1;
    }
    assert cart[..i] == cart;
    var order := Order(userId, "pending", total, "USD");
    var created := CreateOrderWithItems(order, lines, createOrder, insertItems, now);
    if created.Failure? {
      return Failure(ServiceCatch(created.error, ValidateFrame(userId, |cart|), "validate_and_create_order", now));
    }
    r := created;
  }

  /** Once a prefix of the cart is rejected, so is the whole cart, with the same error. */
  lemma {:induction false} RejectionIsFinal(cart: seq<CartItem>, fetch: int -> Result<Option<Product>, Thrown>, now: string, n: int)
    requires 0 <= n <= |cart| && CheckCart(cart[..n], fetch, now).Rejected?
    ensures CheckCart(cart, fetch, now) == CheckCart(cart[..n], fetch, now)
    decreases |cart| - n
  {
    if n < |cart| {
      assert cart[..n + 1][..n] == cart[..n];
      RejectionIsFinal(cart, fetch, now, n + 1);
    } else {
      assert cart[..n] == cart;
    }
  }

  /** How a cart rejected by the checks surfaces: a two-frame chain, the
      check's frame, then this service's. */
  lemma OrderFailureIsReported(userId: string, cart: seq<CartItem>, fetch: int -> Result<Option<Product>, Thrown>,
                               createOrder: Order -> Result<int, Thrown>, insertItems: seq<OrderItem> -> Option<Thrown>,
                               now: string, k: int)
    requires 0 <= k < |cart| && CheckItem(cart[k], fetch, now).Failure? && fetch(cart[k].productId).Success?
    requires forall j :: 0 <= j < k ==> CheckItem(cart[j], fetch, now).Success?
    ensures OrderOutcome(userId, cart, fetch, createOrder, insertItems, now).Failure?
    ensures OrderOutcome(userId, cart, fetch, createOrder, insertItems, now).error.AppErr?
    ensures |OrderOutcome(userId, cart, fetch, createOrder, insertItems, now).error.error.frames| == 2
    ensures OrderOutcome(userId, cart, fetch, createOrder, insertItems, now).error.error.frames[0].code in CartRejectionCodes
    ensures ErrorCode(OrderOutcome(userId, cart, fetch, createOrder, insertItems, now).error.error) == "validate_and_create_order_failed"
  {
    FirstFailureRejectsCart(cart, fetch, now, k);
    CheckItemMeaning(cart[k], fetch, now);
    var e := CheckItem(cart[k], fetch, now).error;
    ServiceCatchMeaning(e, ValidateFrame(userId, |cart|), "validate_and_create_order", now);
  }

  /** A product lookup that throws `undefined` or `null` makes the catch
      clause throw the `TypeError` of reading its `.message`: the order
      fails with that error and no frame. */
  lemma LookupNullishEscapes(userId: string, cart: seq<CartItem>, fetch: int -> Result<Option<Product>, Thrown>,
                             createOrder: Order -> Result<int, Thrown>, insertItems: seq<OrderItem> -> Option<Thrown>,
                             now: string, k: int, e: Thrown)
    requires 0 <= k < |cart| && fetch(cart[k].productId) == Failure(e) && Nullish(e)
    requires forall j :: 0 <= j < k ==> CheckItem(cart[j], fetch, now).Success?
    ensures OrderOutcome(userId, cart, fetch, createOrder, insertItems, now) == Failure(ReadMessageTypeError(e))
  {
    FirstFailureRejectsCart(cart, fetch, now, k);
    ServiceCatchMeaning(e, ValidateFrame(userId, |cart|), "validate_and_create_order", now);
  }

  /** Once the cart is accepted, the order is created for the cart's total
      with status "pending" in USD. It fails exactly when a DAL call throws.
      When what the DAL threw is an ordinary value, the failure is this
      service's frame on top of the order-creation frames. When the DAL threw
      `undefined` or `null`, the order-creation catch throws a `TypeError`
      instead, and this service wraps it as one "unexpected_error" frame. */
  lemma AcceptedOrderOutcome(userId: string, cart: seq<CartItem>, fetch: int -> Result<Option<Product>, Thrown>,
                             createOrder: Order -> Result<int, Thrown>, insertItems: seq<OrderItem> -> Option<Thrown>,
                             now: string)
    requires forall j :: 0 <= j < |cart| ==> CheckItem(cart[j], fetch, now).Success?
    ensures CheckCart(cart, fetch, now).Accepted?
    ensures OrderOutcome(userId, cart, fetch, createOrder, insertItems, now) ==
      AfterCreate(CreateOrderWithItems(Order(userId, "pending", CalculateOrderTotal(CheckCart(cart, fetch, now).lines), "USD"),
                                       CheckCart(cart, fetch, now).lines, createOrder, insertItems, now),
                  userId, |cart|, now)
    ensures var thrown := OrderDalThrown(Order(userId, "pending", CalculateOrderTotal(CheckCart(cart, fetch, now).lines), "USD"),
                                         CheckCart(cart, fetch, now).lines, createOrder, insertItems);
      var r := OrderOutcome(userId, cart, fetch, createOrder, insertItems, now);
      && (r.Failure? <==> thrown.Some?)
      && (r.Failure? ==> r.error.AppErr?)
      && (thrown.Some? && !Nullish(thrown.value) ==>
            ErrorCode(r.error.error) == "validate_and_create_order_failed" && |r.error.error.frames| >= 2)
      && (thrown.Some? && Nullish(thrown.value) ==>
            && r.error.error.frames == [Frame(SERVICE, "unexpected_error", ReadMessageTypeError(thrown.value).message,
                                              map["operation" := Str("validate_and_create_order")], Some(now))]
            && r.error.error.origin == ReadMessageTypeError(thrown.value))
  {
    AllPassAccepts(cart, fetch, now);
    AcceptedCartMeaning(cart, fetch, now);
    var checked := CheckCart(cart, fetch, now);
    var order := Order(userId, "pending", checked.total, "USD");
    var created := CreateOrderWithItems(order, checked.lines, createOrder, insertItems, now);
    if created.Failure? {
      var e := created.error;
      ServiceCatchMeaning(e, ValidateFrame(userId, |cart|), "validate_and_create_order", now);
      var thrown := OrderDalThrown(order, checked.lines, createOrder, insertItems).value;
      if Nullish(thrown) {
        CreateOrderNullishEscapes(order, checked.lines, createOrder, insertItems, now, thrown);
      } else {
        assert e.AppErr?;
      }
    }
  }
}

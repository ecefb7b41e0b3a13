# Deduplicated bulk upsert, id reconciliation and their helpers

This project is a Dafny model of the data core of a SvelteKit/Supabase
application template. At its centre is the pipeline that writes a batch of
catalog rows (products, categories) to the database:

1. `deduplicate_array` collapses rows that agree on everything but a set of
   ignored properties. It keeps the first occurrence of each and records a
   position map from each input index to its representative, with -1 for
   an excluded row.
2. The store upserts the representatives and returns their ids.
3. `recreate_id_array` spreads those ids back over the original positions.
4. In the service layer, `map_from_id_to_id` and a write-back loop replace
   each client-side temporary id (a negative number) in the caller's rows
   with the id the server assigned.

Around the pipeline the model covers:

- the error-frame chain (`App_Error`) that every layer extends when it catches;
- the service functions that create orders and validate carts;
- the validators;
- the domain helpers: order totals, stock, slugs, product validation, status labels;
- the dispatcher's error display.

The modules follow the source files:

| module | file |
|---|---|
| `Wrappers` | `Option` and `Result` |
| `Json` | values and records, JavaScript truthiness |
| `Text` | JavaScript's `\s`, `trim`, ASCII `toLowerCase`, integer rendering, `join` |
| `CoreErrors` | `src/lib/EXAMPLE_CORE/errors.ts` |
| `CoreUtils` | `src/lib/EXAMPLE_CORE/utils.ts` |
| `CoreValidation` | `src/lib/EXAMPLE_CORE/validation.ts` |
| `DataTypes` | `src/lib/EXAMPLE_DATA/types.ts` |
| `DataUtils` | `src/lib/EXAMPLE_DATA/utils.ts` |
| `DataDal` | the two bulk upserts of `src/lib/EXAMPLE_DATA/dal.ts` |
| `DataService` | `src/lib/EXAMPLE_DATA/service.ts` |
| `DispatcherUtils` | `src/lib/DISPATCHER/utils.ts` |

Code that loops over state is imperative Dafny:

- the loops of `deduplicate_array`, `recreate_id_array`, `map_from_id_to_id`,
  `chunk_array`, `unique_by` and `group_by`;
- the product checks in `ESERVICE_validate_and_create_order`;
- `EUTIL_validate_product_data`.

Each of those methods is proved against its specification: either
properties stated outright in its `ensures`, or equality with a
specification function whose meaning the lemmas beside it state. The service's id write-back
changes the caller's objects, so it is a method over an `array` of records
with a `modifies` clause. Everything else is a function.

Modelling choices:

- `async`/`throw` becomes a `Result` whose failure is a `Thrown` value. An
  `App_Error` is one kind of `Thrown`; the others are `undefined`, `null`,
  scalars, and foreign error objects, which keep only their `message`.
- The database is a function parameter:
  - the bulk upsert's store returns the ids of the rows it wrote, or an error;
  - `DAL_get_product_by_id`, `DAL_create_order` and `DAL_insert_order_items`
    are parameters of the service functions.
- The clock that stamps error frames is the string parameter `now`.
- Numbers are mathematical integers (prices in cents).

Behaviour of the source that the model keeps:

- `recreate_id_array` never checks that the store returned one row per
  representative.
  - Too few rows: it reads `.id` of `undefined` and throws a `TypeError`.
  - Too many rows: its result is longer than the input, padded with `null`
    entries.
  - `DataDal.UpsertOutcome` models both cases. `DataDal.UpsertSucceedsUnderStoreContract`
    shows that a store returning one row per representative gives exactly one
    id per input position.
- `map_from_id_to_id` iterates over the whole first array and reads the
  second at the same index, hence `CoreUtils.MapFromIdToId`'s requires.
- The service catch clauses read `(e as Error).message` without `?.`. A
  thrown `undefined` or `null` therefore makes the clause itself throw a
  `TypeError`, which leaves the function in place of an `App_Error`.
- A row whose `id` is zero or absent is left alone by the write-back loop,
  since both are falsy.

## Model

| member | source | states |
|---|---|---|
| `CoreErrors.CreateAppError` | src/lib/EXAMPLE_CORE/errors.ts:3-11 | a fresh chain holding exactly the given frame stamped with the clock; the developer message is the frame's message and the origin is kept |
| `CoreErrors.PushErrorFrame` | src/lib/EXAMPLE_CORE/errors.ts:13-21 | the old frames stay as a prefix, exactly one stamped frame is added at the end, developer message and origin are unchanged |
| `CoreErrors.IsAppError` | src/lib/EXAMPLE_CORE/errors.ts:23-25 | the `kind === 'App_Error'` test as the `AppErr` case of `Thrown`; its use is stated by `HandleError` and `DataService.ServiceCatch` |
| `CoreErrors.HandleError` | src/lib/EXAMPLE_CORE/errors.ts:27-48 | an `App_Error` gets the handler's frame pushed with the newest frame's message or "Propagated error"; any other value becomes a one-frame chain whose frame message and developer message are its message or "Unknown error", and it is kept as origin |
| `CoreErrors.UserFriendlyMessage` | src/lib/EXAMPLE_CORE/errors.ts:50-53 | a non-empty text: the newest frame's message, or "An unexpected error occurred" |
| `CoreErrors.ErrorCode` | src/lib/EXAMPLE_CORE/errors.ts:55-58 | the newest frame's code; what it reports after a push is stated by `PushedFrameIsUserFacing` |
| `CoreErrors.PushedFrameIsUserFacing` | src/lib/EXAMPLE_CORE/errors.ts:50-58 | after a push (or a create) the error code is the new frame's code and the user-facing message is its message, or the default when it has none |
| `CoreErrors.HandleErrorGrowsChain` | src/lib/EXAMPLE_CORE/errors.ts:27-58 | handling grows an `App_Error`'s chain by exactly one frame and keeps the old ones, turns anything else into a single frame, and reports the handler's code with a non-empty message |
| `CoreUtils.DeduplicateArray` | src/lib/EXAMPLE_CORE/utils.ts:41-69 | the items are the first occurrences of the non-excluded items by key (item minus ignored properties); the map has exactly the input indices, with -1 for an excluded item and otherwise the index of the representative with the same key |
| `CoreUtils.DeduplicatePositionsMeaning` | src/lib/EXAMPLE_CORE/utils.ts:50-65 | a position is -1 exactly when its item is excluded; otherwise it is a valid index whose representative equals the item outside the ignored properties |
| `CoreUtils.DeduplicateItemsMeaning` | src/lib/EXAMPLE_CORE/utils.ts:41-69 | the representatives are input items, none excluded, pairwise different outside the ignored properties |
| `CoreUtils.FirstOccurrencesRepresent` | src/lib/EXAMPLE_CORE/utils.ts:60-64 | the first non-excluded item with a given key is that key's representative: first occurrence wins |
| `CoreUtils.FirstOccurrencesOrdered` | src/lib/EXAMPLE_CORE/utils.ts:60-63 | representatives come in the order in which their keys first occur in the input |
| `CoreUtils.FirstOccurrencesLength` | src/lib/EXAMPLE_CORE/utils.ts:41-69 | there are never more representatives than input items |
| `CoreUtils.RecreateIdArray` | src/lib/EXAMPLE_CORE/utils.ts:71-83 | throws the missing-row `TypeError` exactly when some map entry is neither -1 nor the index of a returned row; otherwise every mapped position holds -1 or its row's id, every other position is `None` (null below the row count, a hole above it), and the length is the larger of the row count and the largest mapped index plus one |
| `CoreUtils.MapFromIdToId` | src/lib/EXAMPLE_CORE/utils.ts:85-94 | the map built by the loop equals `IdMap`, the map after every iteration has written the row's defined id and the server id to the server id |
| `CoreUtils.IdMapKeysAndValues` | src/lib/EXAMPLE_CORE/utils.ts:85-94 | the keys are exactly the rows' defined ids plus the server ids, and every value is one of the server ids |
| `CoreUtils.IdMapLastWriteWins` | src/lib/EXAMPLE_CORE/utils.ts:87-92 | a key holds the server id of the last iteration that wrote it |
| `CoreUtils.IdMapResolvedIdsAreFixed` | src/lib/EXAMPLE_CORE/utils.ts:91 | when no temporary id equals a server id, every server id maps to itself, so resolving an already resolved id changes nothing |
| `CoreUtils.ChunkArray` | src/lib/EXAMPLE_CORE/utils.ts:104-110 | the chunks concatenate back to the input, every chunk but the last has the chunk size, the last is non-empty and not larger, and there are no chunks exactly for an empty input, whatever the size |
| `CoreUtils.UniqueBy` | src/lib/EXAMPLE_CORE/utils.ts:112-122 | the result is the first item of each key in input order: keys pairwise different, every input key represented, only input items |
| `CoreUtils.GroupBy` | src/lib/EXAMPLE_CORE/utils.ts:124-133 | the keys are exactly the items' keys and each maps to the non-empty list of items with that key, in input order |
| `CoreUtils.GroupByAsWritten` | src/lib/EXAMPLE_CORE/utils.ts:124-133 | the source's accumulator over an object literal, inherited names included; its behaviour is stated by the two lemmas below |
| `CoreUtils.GroupByAsWrittenThrowsOnInheritedKey` | src/lib/EXAMPLE_CORE/utils.ts:124-133 | the source's accumulator throws on an item whose key is "constructor" |
| `CoreUtils.GroupByAsWrittenAgreesOnOwnKeys` | src/lib/EXAMPLE_CORE/utils.ts:124-133 | when no key is an inherited `Object.prototype` name, the source's accumulator succeeds and groups exactly as `GroupBy` |
| `CoreUtils.SortBy` | src/lib/EXAMPLE_CORE/utils.ts:135-143 | the result is a permutation of the input (same multiset) and is ordered by key, ascending or descending |
| `CoreUtils.Clamp` | src/lib/EXAMPLE_CORE/utils.ts:145-147 | within the bounds when they are ordered, the value itself when it is inside, the nearer bound otherwise, and `max` when the bounds are crossed |
| `CoreUtils.Truncate` | src/lib/EXAMPLE_CORE/utils.ts:175-178 | a text that fits is unchanged; otherwise a prefix followed by the suffix, exactly `max_length` long when the suffix fits |
| `CoreValidation.EmailShape` | src/lib/EXAMPLE_CORE/validation.ts:1-4 | an e-mail is valid exactly when it has one `@`, no white space, a non-empty local part, and a dot in the domain that is neither its first nor its last character |
| `CoreValidation.IsValidEmail` | src/lib/EXAMPLE_CORE/validation.ts:1-4 | the regex as a predicate; its meaning is stated by `EmailShape` |
| `CoreValidation.UuidCaseInsensitive` | src/lib/EXAMPLE_CORE/validation.ts:15-18 | UUID validity does not change under lower-casing (the `i` flag) |
| `CoreValidation.UuidHasFourDashes` | src/lib/EXAMPLE_CORE/validation.ts:15-18 | a valid UUID contains exactly its four dashes |
| `CoreValidation.IsValidUuid` | src/lib/EXAMPLE_CORE/validation.ts:15-18 | the regex as a predicate; its meaning is stated by `UuidCaseInsensitive` and `UuidHasFourDashes` |
| `CoreValidation.PhoneShape` | src/lib/EXAMPLE_CORE/validation.ts:20-23 | a valid phone number has at least ten characters, all digits, white space, `-`, `(` or `)` except an optional leading `+` |
| `CoreValidation.IsValidPhone` | src/lib/EXAMPLE_CORE/validation.ts:20-23 | the regex and the ten-digit count as a predicate; its meaning is stated by `PhoneShape` |
| `CoreValidation.SanitizeHtml` | src/lib/EXAMPLE_CORE/validation.ts:26-37 | the escaped text contains none of `< > " '` and is not shorter than the input |
| `CoreValidation.SanitizeRoundTrip` | src/lib/EXAMPLE_CORE/validation.ts:26-37 | reading the five entities back recovers the original text |
| `CoreValidation.ValidateRequired` | src/lib/EXAMPLE_CORE/validation.ts:43-48 | a message exactly for null, undefined and the empty string, naming the field |
| `CoreValidation.LengthBoundsCountCodeUnits` | src/lib/EXAMPLE_CORE/validation.ts:50-62 | a character outside the Basic Multilingual Plane counts as two against both length bounds, as `.length` counts it |
| `CoreValidation.ValidateMinLength` | src/lib/EXAMPLE_CORE/validation.ts:50-55 | no message exactly when the value has at least `min` UTF-16 code units, the unit of `.length` |
| `CoreValidation.ValidateMaxLength` | src/lib/EXAMPLE_CORE/validation.ts:57-62 | no message exactly when the value has at most `max` UTF-16 code units, the unit of `.length` |
| `CoreValidation.ValidateRange` | src/lib/EXAMPLE_CORE/validation.ts:64-69 | no message exactly when the value lies between the bounds inclusive |
| `CoreValidation.CollectValidationErrors` | src/lib/EXAMPLE_CORE/validation.ts:78-82 | every collected message comes from some validator and every validator's message is collected |
| `CoreValidation.CollectPreservesOrder` | src/lib/EXAMPLE_CORE/validation.ts:78-82 | collecting over two lists of validators is collecting over each and concatenating, so messages keep validator order |
| `CoreValidation.CollectEmptyIff` | src/lib/EXAMPLE_CORE/validation.ts:78-82 | nothing is collected exactly when every validator passes |
| `DataUtils.OrderTotalAppend` | src/lib/EXAMPLE_DATA/utils.ts:10-12 | the order total is additive over concatenation and one line contributes unit price times quantity |
| `DataUtils.CalculateOrderTotal` | src/lib/EXAMPLE_DATA/utils.ts:10-12 | the left fold of price times quantity from 0; its meaning is stated by `OrderTotalAppend` and `DataService.AcceptedCartMeaning` |
| `DataUtils.IsOrderEditable` | src/lib/EXAMPLE_DATA/utils.ts:26-28 | an order is editable exactly when its status is "pending" or "processing"; nothing beyond its definition is proved |
| `DataUtils.IsProductInStock` | src/lib/EXAMPLE_DATA/utils.ts:30-33 | in stock when the stock is not tracked or covers the request; tied to the cart check by `DataService.CheckItemMeaning` |
| `DataUtils.KeepSlugChars` | src/lib/EXAMPLE_DATA/utils.ts:43 | removing characters outside `[\w\s-]` never lengthens the text, and on lower-cased text leaves only word characters, white space and dashes |
| `DataUtils.CollapseSeparators` | src/lib/EXAMPLE_DATA/utils.ts:44 | every run of separators becomes one dash: no two dashes in a row, only slug characters remain, starts with a dash exactly when the input starts with a separator |
| `DataUtils.TrimLeadingDashes` | src/lib/EXAMPLE_DATA/utils.ts:45 | no leading dash remains and the slug shape is kept |
| `DataUtils.TrimTrailingDashes` | src/lib/EXAMPLE_DATA/utils.ts:45 | no trailing dash remains and the slug shape is kept |
| `DataUtils.Slugify` | src/lib/EXAMPLE_DATA/utils.ts:39-46 | the five steps in source order; its meaning is stated by `SlugifyShape` and `SlugifyIdempotent` |
| `DataUtils.SlugifyShape` | src/lib/EXAMPLE_DATA/utils.ts:39-46 | a slug consists of lower-case ASCII letters, digits and single dashes, with no dash at either end |
| `DataUtils.SlugifyIdempotent` | src/lib/EXAMPLE_DATA/utils.ts:39-46 | slugifying a slug gives the same slug |
| `DataUtils.ValidateProductData` | src/lib/EXAMPLE_DATA/utils.ts:48-75 | the messages are the rule failures in rule order, and the data is valid exactly when there is none |
| `DataUtils.ProductErrorsMeaning` | src/lib/EXAMPLE_DATA/utils.ts:49-74 | each of the five messages is reported exactly when its rule fails (blank name, blank sku, missing or negative price, missing category, negative stock); no message exactly when all rules pass; at most five |
| `DataUtils.GetOrderStatusDisplay` | src/lib/EXAMPLE_DATA/utils.ts:77-87 | the five statuses get their capitalised labels, and any other status is shown unchanged |
| `DataUtils.GetOrderStatusDisplayAsWritten` | src/lib/EXAMPLE_DATA/utils.ts:77-87 | the source's lookup over an object literal, inherited names included; stated by the two lemmas below |
| `DataUtils.StatusDisplayAsWrittenLeaksPrototype` | src/lib/EXAMPLE_DATA/utils.ts:77-87 | the source's lookup shows the status "toString" as an inherited function, where the intended display is "toString" |
| `DataUtils.StatusDisplayAgreesOnOwnKeys` | src/lib/EXAMPLE_DATA/utils.ts:77-87 | away from inherited `Object.prototype` names the source's lookup gives the intended label |
| `DataDal.UpsertRows` | src/lib/EXAMPLE_DATA/dal.ts:7-32 | without changing the caller's rows, asks the store with the stripped, deduplicated rows and returns exactly `UpsertOutcome`: the store's error wrapped in a DAL frame, the missing-row error, or the ids spread over the positions |
| `DataDal.UpsertOutcome` | src/lib/EXAMPLE_DATA/dal.ts:14-32 | what a bulk upsert returns or throws for a store reply; its meaning is stated by `UpsertSucceedsUnderStoreContract`, `StoreFailureIsOneDalFrame` and `SlotMeaning` |
| `DataDal.UpsertProducts` | src/lib/EXAMPLE_DATA/dal.ts:6-33 | the product upsert's result is `UpsertOutcome` with the non-unique product properties ignored and the code "upsert_products_failed" |
| `DataDal.UpsertCategories` | src/lib/EXAMPLE_DATA/dal.ts:78-105 | the category upsert's result is `UpsertOutcome` with the non-unique category properties ignored and the code "upsert_categories_failed" |
| `DataDal.UpsertSucceedsUnderStoreContract` | src/lib/EXAMPLE_DATA/dal.ts:14-32 | when the store returns one row per representative, the upsert succeeds with one id per input position, namely the id of that position's representative; since nothing is excluded, no position receives the -1 sentinel |
| `DataDal.SlotMeaning` | src/lib/EXAMPLE_DATA/dal.ts:9-14 | two rows share a representative, hence an id, exactly when they agree outside the ignored and server-managed properties; the representative is the first such row, stripped |
| `DataDal.StoreFailureIsOneDalFrame` | src/lib/EXAMPLE_DATA/dal.ts:21-28 | a store error returns no ids and is thrown as one stamped DAL frame with the upsert's code and message, the number of rows submitted (at most the input's) as `count`, and the store's error as origin |
| `DataDal.EverySlotIsUsed` | src/lib/EXAMPLE_DATA/dal.ts:14-30 | every submitted representative stands for at least one input row |
| `DataDal.SubmittedRowsAreStripped` | src/lib/EXAMPLE_DATA/dal.ts:9-12 | no row sent to the store carries an `id` or a `created_at` |
| `DataDal.ProductsCollapseIffSameSku` | src/lib/EXAMPLE_DATA/types.ts:1-15 | for rows shaped like products, two rows collapse exactly when their skus agree |
| `DataDal.CategoriesCollapseIffSameSlug` | src/lib/EXAMPLE_DATA/types.ts:17-27 | for rows shaped like categories, two rows collapse exactly when their slugs agree |
| `DataService.ServiceCatch` | src/lib/EXAMPLE_DATA/service.ts:18-34 | what is rethrown is an `App_Error` with at least one frame exactly when the caught value is not `undefined` or `null`; for those the `TypeError` of reading `.message` escapes |
| `DataService.ServiceCatchMeaning` | src/lib/EXAMPLE_DATA/service.ts:18-34 | an `App_Error` keeps its frames and origin and reports the service's code and message; `undefined` and `null` give the `TypeError`; anything else becomes a one-frame "unexpected_error" chain with its message, naming the operation, with the caught value as origin |
| `DataService.RemapRow` | src/lib/EXAMPLE_DATA/service.ts:11-15 | only the `id` property can change, and a row without a temporary id is unchanged |
| `DataService.ResolveTemporaryIds` | src/lib/EXAMPLE_DATA/service.ts:9-15 | the caller's rows become exactly their remapped versions under the id map built from them and the server ids |
| `DataService.RemapResolvesToLastCarrier` | src/lib/EXAMPLE_DATA/service.ts:9-15 | with positive server ids, a row with a temporary id receives the server id of the last row that carries the same temporary id |
| `DataService.UpsertProducts` | src/lib/EXAMPLE_DATA/service.ts:6-35 | on a DAL failure the rows are untouched and the error gets the service frame; on success the DAL's ids are returned and the rows' temporary ids are replaced |
| `DataService.UpsertCategories` | src/lib/EXAMPLE_DATA/service.ts:59-88 | the same as for products, over categories and with the category service frame |
| `DataService.TemporaryIdGetsItsGroupsId` | src/lib/EXAMPLE_DATA/service.ts:6-17 | end to end: with a well-behaved store and positive ids, a product whose temporary id no later product repeats gets the id its deduplication group received |
| `DataService.StampOrderId` | src/lib/EXAMPLE_DATA/service.ts:98-101 | every item gets the new order's id and nothing else about it changes |
| `DataService.CreateOrderWithItems` | src/lib/EXAMPLE_DATA/service.ts:90-123 | succeeds exactly when the order is created and its stamped items are inserted, returning the order's id; a failure is an `App_Error` with at least one frame exactly when what the DAL threw is not `undefined` or `null` |
| `DataService.CreateOrderFailureIsReported` | src/lib/EXAMPLE_DATA/service.ts:106-114 | an `App_Error` from either insert surfaces with the code "create_order_service_failed" on top of the callee's frames |
| `DataService.CreateOrderNullishEscapes` | src/lib/EXAMPLE_DATA/service.ts:116-121 | a DAL call throwing `undefined` or `null` fails the function with the `TypeError` of reading `.message`, without a service frame |
| `DataService.CheckItemMeaning` | src/lib/EXAMPLE_DATA/service.ts:195-232 | a cart entry passes exactly when its product exists, is active and is in stock; the line then copies product id, quantity, price and name and prices the quantity; a rejection is a one-frame chain with one of the three cart codes; a lookup failure is passed through |
| `DataService.CheckItem` | src/lib/EXAMPLE_DATA/service.ts:195-232 | one iteration of the cart loop as a function; its meaning is stated by `CheckItemMeaning` |
| `DataService.AcceptedCartMeaning` | src/lib/EXAMPLE_DATA/service.ts:191-235 | an accepted cart gives one line per entry in cart order, and the running total equals the order total of the lines |
| `DataService.CheckCart` | src/lib/EXAMPLE_DATA/service.ts:194-235 | the cart loop as a function: the lines and total, or the first error; its meaning is stated by `AcceptedCartMeaning`, `FirstFailureRejectsCart`, `AllPassAccepts` and `RejectionIsFinal` |
| `DataService.FirstFailureRejectsCart` | src/lib/EXAMPLE_DATA/service.ts:194-222 | the cart is rejected with the error of its first failing entry |
| `DataService.AllPassAccepts` | src/lib/EXAMPLE_DATA/service.ts:194-235 | a cart whose every entry passes is accepted |
| `DataService.RejectionIsFinal` | src/lib/EXAMPLE_DATA/service.ts:194-222 | once a prefix of the cart is rejected, the whole cart is rejected with the same error |
| `DataService.ValidateAndCreateOrder` | src/lib/EXAMPLE_DATA/service.ts:185-262 | the loop over the cart and the order creation compute exactly `OrderOutcome` |
| `DataService.OrderOutcome` | src/lib/EXAMPLE_DATA/service.ts:185-262 | what the order service returns or throws; its meaning is stated by `OrderFailureIsReported`, `LookupNullishEscapes` and `AcceptedOrderOutcome` |
| `DataService.OrderFailureIsReported` | src/lib/EXAMPLE_DATA/service.ts:245-253 | a cart rejected by the checks surfaces as a two-frame chain: the check's frame, then "validate_and_create_order_failed" |
| `DataService.LookupNullishEscapes` | src/lib/EXAMPLE_DATA/service.ts:194-196 | a product lookup throwing `undefined` or `null` fails the order with the `TypeError` of reading `.message` and no frame |
| `DataService.AcceptedOrderOutcome` | src/lib/EXAMPLE_DATA/service.ts:237-261 | an accepted cart creates a "pending" USD order for the cart's total with its lines; it fails exactly when a DAL call throws, always as an `App_Error`: "validate_and_create_order_failed" over at least two frames, or a single "unexpected_error" frame wrapping the `TypeError` when the DAL threw `undefined` or `null` |
| `DispatcherUtils.FormatErrorForDisplay` | src/lib/DISPATCHER/utils.ts:16-32 | the summary is the user-facing message of the newest frame and the details are one `[layer] code: message` line per frame, joined by line breaks |
| `DispatcherUtils.PushedFrameHintsAreShown` | src/lib/DISPATCHER/utils.ts:19-20 | after a push the hints are the pushed frame's truthy `troubleshooting`, whatever older frames carried, and otherwise an empty list |
| `DispatcherUtils.PushAddsOneDetailLine` | src/lib/DISPATCHER/utils.ts:23-28 | pushing a frame appends exactly its line to the details and makes its message the summary |
| `DispatcherUtils.DetailsHaveOneLinePerFrame` | src/lib/DISPATCHER/utils.ts:23-25 | when no code or message contains a line break, the details contain one line break fewer than there are frames |
| `DispatcherUtils.IsTicketValid` | src/lib/DISPATCHER/utils.ts:10-14 | a ticket is complete exactly when it exists and has a client name and a client e-mail |

## Left out

- Routing, sessions, authentication, the `response` helpers and logging of the application: glue over the platform, outside the core.
- The single-row DAL and service functions: `DAL_get_products_by_category`, `DAL_get_all_categories`, the order queries, `ESERVICE_get_*` and `ESERVICE_update_order_status`. They are one call each; those that the modelled functions call are parameters.
- `DAL_get_product_by_id`, `DAL_create_order` and `DAL_insert_order_items` are function parameters, not models: their database queries are outside the model.
- `dupe`: the defensive copy is modelled by copying the caller's array into a fresh one, not by a JSON round trip.
- The JSON serialisation behind the deduplication key (`JSON.stringify(Object.entries(item).sort())`): two rows are compared as records, by value. Differences that only the serialisation would show (property order in nested objects, `undefined` values) are not modelled.
- JavaScript's string coercion of object keys: the position map and the id map use numbers and values as keys directly.
- The clock: every timestamp is the parameter `now`. `dev_stack` is not modelled.
- Randomness, timers, dates and formatting: `random_int`, `random_item`, `shuffle`, `sleep`, `set_prop`, `is_empty`, `capitalize`, `title_case`, `parse_json_safe`, `format_date`, `time_ago`, `EUTIL_format_price`, `EUTIL_generate_sku` (clock-based), `EUTIL_calculate_discount` (floating point).
- `is_valid_url` (the URL parser of the platform), `validate_pattern` (an arbitrary regular expression), the DOM branch of `sanitize_html`, and `DISPATCHERUTIL_format_ticket_for_display` (`JSON.stringify` formatting).
- Floating point: prices, totals and quantities are integers.
- Unicode case mapping: `toLowerCase` is modelled on ASCII letters only.
- CoreUtils.Truncate: lengths and the cut are counted in characters, where `.length` and `substring` count UTF-16 code units; the two agree on text inside the Basic Multilingual Plane. A cut inside a surrogate pair cannot be expressed, because a Dafny `string` holds no lone surrogates.
- CoreUtils.RecreateIdArray: an index past the row count that the map does not name is a hole (`undefined`) in the source and `None`, the same as `null`, in the model. The DAL's position map names every input index from 0, so no hole arises there.
- Default arguments are explicit parameters: truncate's `suffix = '...'`, sort_by's `order = 'asc'`, handle_error's `code = 'unhandled_error'` and `context = {}`, and `requested_quantity = 1` of EUTIL_is_product_in_stock.
- Concurrency and `await`: each async function is modelled as one atomic step with its callees' results as inputs.
- An id set to `undefined` by the write-back loop (a temporary id the map lacks) is modelled as the property being removed.
- CoreUtils.SortBy: stability (the order of equal keys) is not stated, and keys are integers only (string keys are not modelled).
- CoreUtils.GroupBy: keys are strings only; a number key's coercion to a property name is not modelled.
- CoreUtils.ChunkArray: requires a positive chunk size on a non-empty array; there the source loops for ever with zero or a negative size.
- CoreUtils.MapFromIdToId: requires at least as many server ids as rows; the source would store `undefined` values otherwise.
- CoreErrors.UserFriendlyMessage and CoreErrors.ErrorCode require a non-empty chain, because the source reads the newest frame without checking that there is one; likewise DispatcherUtils.FormatErrorForDisplay.
- CoreErrors.HandleError requires the layer to be ENDPOINT or LOAD, as its TypeScript signature does.
- DataService.UpsertProducts and DataService.UpsertCategories require every `id` the rows carry to be a number, as `Partial<Product_Schema>` and `Partial<Category_Schema>` declare.

## Findings

| source | as written | input that shows it | evidently intended | confidence | as-written member | corrected member |
|---|---|---|---|---|---|---|
| src/lib/EXAMPLE_CORE/utils.ts:124-133 | the accumulator is an object literal, so `!groups[key]` is false for a name inherited from `Object.prototype`, and `groups[key].push` then calls `push` on a function and throws | one item whose key is "constructor" | each key maps to the list of items with that key | not executed | `CoreUtils.GroupByAsWritten`, shown by `CoreUtils.GroupByAsWrittenThrowsOnInheritedKey` | `CoreUtils.GroupBy` |
| src/lib/EXAMPLE_DATA/utils.ts:77-87 | `status_map[status] \|\| status` reads inherited members of the object literal, so an inherited name is displayed as a function | the status "toString" | a status without a label is shown unchanged | not executed | `DataUtils.GetOrderStatusDisplayAsWritten`, shown by `DataUtils.StatusDisplayAsWrittenLeaksPrototype` | `DataUtils.GetOrderStatusDisplay` |

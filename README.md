# Store core: session cart, checkout, wishlist, cart badge and slugify

This project is a Dafny model of the shop logic of a Django e-commerce site,
with proofs about that model. It covers five parts:

- **The session cart** (`cart.dfy`, module `CartViews`). The cart is the
  dict the session stores under `'cart'`. Each key is a product id and each
  value a snapshot of the product's name, slug and price plus a quantity.
  A Python dict keeps insertion order, so the cart is a sequence of `Line`s
  with distinct ids, and `ToMap` gives its dict view. Assignment (`Put`)
  keeps a present key in place and appends a new one; `del` is `Delete`.
  The session is a `Session` object whose `cart` field the views reassign.
  That field holds no cart, a dict, or a value that is not a dict.
  The views modelled are add, the cart page (recheck every entry against the
  catalog, list and total the purchasable ones, drop the ones whose product
  is gone), update, remove and clear.
- **Checkout** (`checkout.dfy`, module `CheckoutViews`).
  - `get_cart_items` keeps the cart entries whose product is purchasable.
  - The totals and the flat shipping below 50.00 are pure functions.
  - The POST path creates a pending order and walks the items one by one.
    For each item it reloads the product, refuses a shortfall by deleting
    the order, records an order item at the cart's price and lowers the
    stock. On success it empties the cart. The walk is `Place`, a function
    of the catalog and the items; `PlaceLoop` is the loop proved against it.
  - `order_confirmation` only returns the user's own order, and
    `order_history` lists the user's orders newest first.
- **The wishlist** (`wishlist.dfy`, module `WishlistViews`). The table is a
  set of (user, product) pairs. The views are the AJAX membership query, the
  AJAX toggle and the AJAX remove.
- **The cart badge** (`context_processors.dfy`, module `ContextProcessors`).
  It is the sum of the quantities of all cart entries, hidden ones
  included.
- **The `slugify` template filter** (`store_tags.dfy`, module `StoreTags`).

`models.dfy` holds the database rows: products, orders with their items, and
wishlist pairs. They live in one `Database` object whose fields the views
update. Money is integer cents: 50.00 is 5000 and 5.99 is 599.

Nothing here reads a clock, a request or the database itself. The caller
passes these in:

- the logged-in user (`None` for an anonymous request);
- the request method and whether it is an AJAX request;
- the posted quantity, already converted to an integer;
- the posted contact fields;
- the creation time of a new order.

## Model

| member | source | states |
|---|---|---|
| Models.Purchasable | store/cart_views.py:57 | a product counts as purchasable, on the cart page and in get_cart_items (store/checkout_views.py:22), only if it exists and has at least one unit of stock (it must also be available) |
| CartViews.RequestedQuantity | store/cart_views.py:38 | the posted quantity, or 1 when none was posted (the same default at lines 30 and 100) |
| CartViews.GetCart | store/cart_views.py:7-12 | a stored dict is the cart; a missing key or a non-dict value is the empty cart |
| CartViews.ToMapKeys | store/cart_views.py:28 | a key is in the dict exactly when some line carries it |
| CartViews.ToMapAt | store/cart_views.py:28 | in a dict with unique keys, each line's key maps to that line's entry |
| CartViews.Replace | store/cart_views.py:30 | assigning to a present key changes that key's line in place and no other line |
| CartViews.ReplaceToMap | store/cart_views.py:30 | the dict after an in-place assignment is the old dict with that one key updated |
| CartViews.Put | store/cart_views.py:34-40 | `cart[id] = e` gives the old dict with `id` mapped to `e`; a new key is appended at the end; keys stay unique |
| CartViews.Delete | store/cart_views.py:128 | `del cart[id]` (also at lines 76 and 113) never makes the cart longer; `DeleteToMap`, `DeleteMembers` and `DeleteOnly` give its contents |
| CartViews.DeleteToMap | store/cart_views.py:128 | `del cart[id]` gives the old dict without `id` |
| CartViews.DeleteMembers | store/cart_views.py:128 | after `del`, the lines are exactly the old lines with other keys |
| CartViews.DeleteShorter | store/cart_views.py:128 | deleting a present key shrinks the dict |
| CartViews.DeleteDistinct | store/cart_views.py:128 | deleting keeps the keys unique |
| CartViews.DeleteOnly | store/cart_views.py:76 | deleting a key that occurs once splices out its line and keeps the others in order |
| CartViews.DeleteAbsent | store/cart_views.py:126 | deleting an absent key changes nothing |
| CartViews.FindAvailableBySlug | store/cart_views.py:23 | finds a product with the slug that is available, or reports that there is none |
| CartViews.SetQuantity | store/cart_views.py:106 | the entry gets the new quantity; its name, slug and price and every other entry stay |
| CartViews.AddLine | store/cart_views.py:28-40 | a present key has the posted quantity added and keeps its snapshot; a new key is appended with the product's current name, slug and price and the posted quantity; no other entry changes |
| CartViews.AddToCart | store/cart_views.py:21-44 | not found or unavailable: the session is unchanged; otherwise the session holds `AddLine` of the old cart, and the outcome says whether the key was already there; neither stock nor the sign of the quantity is checked |
| CartViews.UpdateCart | store/cart_views.py:93-118 | not a POST or key not in the cart: unchanged; quantity <= 0: the key is deleted; product missing or quantity above stock: unchanged, with the reason; otherwise the quantity is set |
| CartViews.RemoveFromCart | store/cart_views.py:121-132 | a present key is deleted and reported; otherwise the session is unchanged |
| CartViews.ClearCart | store/cart_views.py:135-141 | the session no longer holds a cart, and the result says whether it held one |
| CartViews.DropMissing | store/cart_views.py:74-77 | every line the cart page keeps in the session refers to a product that still exists |
| CartViews.DropMissingMembers | store/cart_views.py:74-77 | the kept lines are exactly the lines whose product still exists |
| CartViews.DropMissingDistinct | store/cart_views.py:74-77 | the kept lines still form a dict |
| CartViews.PageRows | store/cart_views.py:53-73 | the cart page lists at most one row per cart line |
| CartViews.PageRowsMembers | store/cart_views.py:57-73 | every row is a purchasable cart line at the snapshot's price with `item_total = price * quantity`, and every purchasable line has its row |
| CartViews.ShippingNeeded | store/cart_views.py:80-81 | `max(0, 50.00 - total)` is never negative, is 0 exactly when the total reaches 50.00, and otherwise tops the total up to 50.00 |
| CartViews.CartPageOf | store/cart_views.py:83-89 | rows are the purchasable lines with their live stock; `total_price` is the sum of the item totals; `cart_count` is the sum of the listed quantities; `shipping_needed` follows the total |
| CartViews.DistinctAround | store/cart_views.py:53 | in a dict, the key at a position occurs nowhere else |
| CartViews.DropStep | store/cart_views.py:74-77 | handling one more line deletes it exactly when its product is gone |
| CartViews.WalkListsRows | store/cart_views.py:53-73 | after any prefix of the loop, the rows gathered are the page rows of that prefix, and the running total is their sum |
| CartViews.WalkDropsMissing | store/cart_views.py:74-77 | after any prefix of the loop, the dict has lost exactly that prefix's lines whose product is gone |
| CartViews.WalkNotesDeletion | store/cart_views.py:74-77 | the loop has deleted something exactly when a line in the prefix has lost its product |
| CartViews.ViewCart | store/cart_views.py:47-90 | the page is `CartPageOf` the stored cart; the session changes only if some product is gone, and then holds the cart without those lines; hidden lines of unavailable or sold-out products stay |
| CartViews.IterationFinishes | store/cart_views.py:53-77 | the loop as written finishes only if the dict still has its starting size |
| CartViews.ViewCartAsWritten | store/cart_views.py:47-90 | the cart view as written never changes the stored session; when it renders, the page is `CartPageOf` the stored cart |
| CartViews.IterationFinishesExactly | store/cart_views.py:53-77 | the loop as written runs to its end exactly when no line from the current position on refers to a deleted product |
| CartViews.StaleEntryBreaksCartView | store/cart_views.py:53-77 | as written, the page fails exactly when the cart holds a line whose product is gone, and the stored session stays as it was |
| CartViews.ViewCartDropsEveryStaleEntry | store/cart_views.py:74-77 | after the corrected view, every stored line's product exists, and the keys are the old keys whose product exists |
| CartViews.AllPresentDropsNothing | store/cart_views.py:74-77 | the view keeps the cart as it is exactly when every product still exists |
| CheckoutViews.CartItems | store/checkout_views.py:14-31 | at most one item per cart line, and every item's product is purchasable |
| CheckoutViews.CartItemsMembers | store/checkout_views.py:19-27 | every item is a purchasable cart line with the cart's quantity and price, and every purchasable line gives an item |
| CheckoutViews.CartItemsDistinct | store/checkout_views.py:19-27 | items of a dict name each product once, and only products in the cart |
| CheckoutViews.GetCartItems | store/checkout_views.py:14-31 | the loop returns `CartItems` of the session cart and leaves the session alone |
| CheckoutViews.ItemsTotal | store/checkout_views.py:44 | with no negative price or quantity, the total is not negative |
| CheckoutViews.ShippingCost | store/checkout_views.py:47 | shipping is 0 exactly when the total reaches 50.00, and 5.99 otherwise |
| CheckoutViews.FinalTotal | store/checkout_views.py:47-48 | the final total equals the total exactly from 50.00 up, and is the total plus 5.99 below it |
| CheckoutViews.ShippingAgreesWithCartPage | store/checkout_views.py:47 | checkout charges no shipping exactly when the cart page says nothing more is needed for free shipping |
| CheckoutViews.CheckoutTotalIsCartTotal | store/checkout_views.py:44 | checkout's total equals the `total_price` the cart page shows for the same cart and catalog |
| CheckoutViews.CheckoutTotalIsRowsTotal | store/checkout_views.py:44 | checkout's total equals the sum of the cart page rows' item totals |
| CheckoutViews.PlaceItem | store/checkout_views.py:77-91 | once the walk has stopped, the loop body changes nothing, and it never adds or removes a product |
| CheckoutViews.PlaceItemCases | store/checkout_views.py:77-91 | a stop at this item leaves the catalog and order items as they were; otherwise the product exists with enough stock, the item is recorded, and exactly its quantity is taken from that product and no other |
| CheckoutViews.Place | store/checkout_views.py:76-91 | the walk keeps the set of products; when it stops at item `at` it has recorded `at` order items, otherwise one per item (`PlaceRecordsSnapshot` gives what they hold) |
| CheckoutViews.PlaceRecordsSnapshot | store/checkout_views.py:83-88 | each order item has the cart's product, price (not the live price) and quantity |
| CheckoutViews.PlaceKeepsStockNonNegative | store/checkout_views.py:79-91 | stock is lowered only after checking it covers the quantity, so it never goes negative |
| CheckoutViews.PlacedTotal | store/checkout_views.py:83-88 | after a complete walk, the order items add up to the checkout total |
| CheckoutViews.PlaceDecrementsExactly | store/checkout_views.py:90-91 | after a complete walk, each ordered product's stock is lower by exactly its quantity, and every other product is unchanged |
| CheckoutViews.PlaceKeepsEarlierDecrements | store/checkout_views.py:79-81 | after a stop at item `at`, the catalog and order items are those the first `at` items left: their stock stays taken |
| CheckoutViews.PlaceStep | store/checkout_views.py:76-91 | walking one more item is one more application of the loop body |
| CheckoutViews.PlaceAfterStop | store/checkout_views.py:79-81 | once the walk has stopped, later items change nothing |
| CheckoutViews.NoVanishedProduct | store/checkout_views.py:77 | if every item's product exists when the walk starts, it only ever stops for a shortfall |
| CheckoutViews.StockLeaksOnShortfall | store/checkout_views.py:76-91 | two items, the second short: the walk refuses at the second, yet the first product's stock stays lowered |
| CheckoutViews.FirstShortfall | store/checkout_views.py:79 | the first item whose product is missing or short, if any, is one of the items |
| CheckoutViews.RecordAll | store/checkout_views.py:83-88 | one order item per checkout item, at the cart's price and quantity |
| CheckoutViews.PlaceAtomically | store/checkout_views.py:76-91 | corrected walk: a refusal leaves the catalog unchanged and records nothing; otherwise every item is recorded |
| CheckoutViews.CompleteWalkTakesAll | store/checkout_views.py:76-91 | a walk that never stops takes every item's stock and records every item |
| CheckoutViews.SameStop | store/checkout_views.py:79-81 | with each product named once, checking first finds exactly the item the walk stops at |
| CheckoutViews.AtomicPlaceAgrees | store/checkout_views.py:76-91 | with each product named once, the two walks stop at the same item; on success they agree; on refusal only the corrected one restores the catalog |
| CheckoutViews.FormOf | store/checkout_views.py:118-124 | the re-rendered form carries the items' total, the shipping (0 exactly from 50.00 up), the final total as total plus shipping, and the error if any |
| CheckoutViews.NewOrder | store/checkout_views.py:61-71 | the new order belongs to the user, is pending and unpaid, and has no items yet |
| CheckoutViews.PlaceLoop | store/checkout_views.py:76-91 | the loop returns exactly the catalog, order items and stop reason of `Place` |
| CheckoutViews.PlaceOrderItems | store/checkout_views.py:76-91 | the catalog becomes `Place`'s; on a shortfall the new order is deleted; otherwise the order keeps the recorded items |
| CheckoutViews.Checkout | store/checkout_views.py:34-125 | anonymous: login redirect, no change; no purchasable item: back to the cart, no change; GET: the form with total, shipping and final total, no change; POST: a new pending order under the next id and the catalog `Place` leaves; on success the cart is emptied; on a shortfall the order is gone, the error names the available count and the cart stays; on a vanished product the order stays and the cart stays |
| CheckoutViews.WorkedExample | test_checkout.py:14-17 | 199.99 x 1 and 29.99 x 2 in stock: total 259.97, no shipping, both items recorded at those prices, stock lowered by 1 and 2 |
| CheckoutViews.OrderConfirmation | store/checkout_views.py:131 | an order is returned exactly when it exists and belongs to the requesting user |
| CheckoutViews.PrependNewest | store/checkout_views.py:144 | an order no older than any in a newest-first list can go in front |
| CheckoutViews.HeadIsNewest | store/checkout_views.py:144 | the head of a newest-first list is the newest, and the rest is newest-first too |
| CheckoutViews.InsertNewest | store/checkout_views.py:144 | inserting an order into a newest-first list keeps it newest-first and adds exactly that order |
| CheckoutViews.Newest | store/checkout_views.py:144 | lists exactly the given orders, each once, newest first |
| CheckoutViews.OrderHistory | store/checkout_views.py:141-149 | lists exactly the user's orders, each once, with creation times never increasing |
| WishlistViews.Toggle | store/wishlist_views.py:32-48 | the pair is in the new table exactly when it was not in the old one; every other pair stays as it was |
| WishlistViews.ToggleAction | store/wishlist_views.py:36-48 | the toggle reports `removed` exactly when the pair was present |
| WishlistViews.ToggleTwice | store/wishlist_views.py:32-48 | toggling the same pair twice restores the table |
| WishlistViews.ToggleActionsAlternate | store/wishlist_views.py:36-48 | two toggles in a row report different actions |
| WishlistViews.ToggleOnlyTouchesOwnWishlist | store/wishlist_views.py:33-43 | other users' wishlists stay as they were, and the requesting user's wishlist changes only in the toggled product |
| WishlistViews.ToggleSize | store/wishlist_views.py:35-43 | the table grows by one on `added` and shrinks by one on `removed` |
| WishlistViews.AddToWishlist | store/wishlist_views.py:11-57 | AJAX GET: membership of the pair for an existing product (availability is not asked), else 400, no change; AJAX POST: an existing available product is toggled with the matching action, else 400, no change; anything else: 400 "Invalid request", no change; other tables untouched |
| WishlistViews.RemoveFromWishlist | store/wishlist_views.py:60-86 | AJAX POST: missing product 400, pair absent 404, otherwise exactly the pair is deleted; anything else: 400 "Invalid request"; no change on any error |
| CartViews.LinesQuantity | store/context_processors.py:7-9 | the sum of the quantities of all entries, which is not negative when no quantity is |
| ContextProcessors.CartCount | store/context_processors.py:1-11 | the count is the sum of the quantities of all stored entries; a non-dict value counts 0; the session is only read |
| ContextProcessors.HiddenMembers | store/cart_views.py:57 | the hidden lines are exactly the cart lines whose product is not purchasable |
| ContextProcessors.RowsAndHiddenSplitCount | store/context_processors.py:8-9 | the badge equals the listed rows' quantities plus the hidden lines' quantities |
| ContextProcessors.CountIncludesHidden | store/context_processors.py:8-9 | the badge is the cart page's `cart_count` plus the quantities of the hidden lines |
| ContextProcessors.NothingHidden | store/cart_views.py:57 | when every line is purchasable, nothing is hidden |
| ContextProcessors.CountMatchesPageWhenNothingHidden | store/context_processors.py:8-9 | when every line is purchasable, the badge and the cart page's count agree |
| ContextProcessors.LinesQuantitySnoc | store/context_processors.py:8-9 | appending an entry raises the count by its quantity |
| ContextProcessors.LinesQuantityReplace | store/context_processors.py:8-9 | replacing a present entry changes the count by the new quantity minus the old |
| ContextProcessors.LinesQuantityDelete | store/context_processors.py:8-9 | deleting a present key lowers the count by that entry's quantity; deleting an absent key leaves it |
| ContextProcessors.AddLineCount | store/context_processors.py:8-9 | after add_to_cart the badge is higher by exactly the posted quantity |
| ContextProcessors.SetQuantityCount | store/context_processors.py:8-9 | after update_cart sets a quantity, the badge moves by the new quantity minus the old |
| StoreTags.LowerChar | store/templatetags/store_tags.py:10 | capital ASCII letters become their small letters; every other character stays |
| StoreTags.Lower | store/templatetags/store_tags.py:10 | lower-casing keeps the length and maps each character on its own |
| StoreTags.ReplaceChar | store/templatetags/store_tags.py:10 | replacing one character keeps the length and changes exactly the occurrences of that character |
| StoreTags.Slugify | store/templatetags/store_tags.py:8-10 | the slug contains no space and no underscore |
| StoreTags.SlugifyAt | store/templatetags/store_tags.py:10 | for ASCII input the slug has the same length; capitals become small letters; space and underscore become '-'; everything else stays |
| StoreTags.SlugifyIdempotent | store/templatetags/store_tags.py:10 | for ASCII input, slugifying a slug gives the same slug |

## Findings

| source | as written | input that shows it | evidently intended | confidence | as-written member | corrected member |
|---|---|---|---|---|---|---|
| store/cart_views.py:53-77 | the cart page runs `del cart[product_id]` inside `for ... in cart.items()`; CPython's dict iterator raises RuntimeError on its next step after the dict shrinks, the view answers 500, and the session middleware does not save the session of a 5xx response | a cart holding an entry whose product has since been deleted from the catalog; every later visit to the cart page fails the same way | drop the stale entries, save the cart and render the page | not executed | CartViews.StaleEntryBreaksCartView | CartViews.ViewCart |
| store/checkout_views.py:76-91 | stock is lowered and saved item by item with no transaction around the loop (`transaction` is imported at line 5 but never used); a shortfall only deletes the order | two items, the first in stock and the second short (`StockLeaksOnShortfall`): checkout refuses, but the first product's stock stays lowered | check every item first and take stock only when all are covered, so a refusal changes nothing | not executed | CheckoutViews.StockLeaksOnShortfall | CheckoutViews.AtomicPlaceAgrees |

The cart page used by the rest of the model is the corrected `ViewCart`.
Checkout is a different case: its observable behaviour, the stock leak
included, is what the site does. So `Checkout` keeps the as-written walk
`Place`. `PlaceAtomically` is the corrected walk, and `AtomicPlaceAgrees`
proves that it agrees with `Place` on every successful checkout and differs
only in restoring the catalog on a refusal.

## Left out

- The `image` field of a cart entry, and the image and product objects on
  the cart page: they are display data.
- Flash messages, redirects and template rendering: each view's outcome is
  a datatype instead.
- `int(request.POST.get('quantity', 1))` on a value that is not a number
  raises ValueError, which becomes a 500 response. The model receives the
  quantity already converted (`RequestedQuantity`: 1 when none was posted).
- Prices are integer cents. The `Decimal` strings stored in the session, and
  their conversion back, are not modelled.
- Cart entries without a `quantity` key, which the badge would count as 0:
  every entry the views write carries one.
- StoreTags.LowerChar: lowers only the ASCII capitals 'A'..'Z'. Python's
  `str.lower` also lowers letters of other scripts, some of them into
  several characters.
- StoreTags.Lower: inherits that gap from `LowerChar`, so its length and
  per-character properties match Python only for ASCII input.
- StoreTags.Slugify: inherits the same gap. For non-ASCII input the model
  may keep a capital that Python would lower. The absence of spaces and
  underscores holds for every input.
- CartViews.FindAvailableBySlug: assumes at most one available product per
  slug. With two, `get_object_or_404` raises MultipleObjectsReturned (a 500
  response); the model picks one of them instead. Slug uniqueness is a
  database constraint that is not part of this model.
- The `mul` template filter: it is float arithmetic.
- `share_product`: it builds an absolute URL from the request.
- The login redirect is one outcome (`LoginRequired`). The checkout view's
  own `is_authenticated` test at store/checkout_views.py:56-58 is
  unreachable behind `login_required`, so it has no separate branch.
- The checkout form's pre-fill from the user's profile
  (store/checkout_views.py:109-116), and the debug prints and logging.
- Concurrency. Two checkouts racing on the same stock (the view checks and
  then saves, without a lock) are not modelled, and neither are products
  deleted during a checkout. `NoVanishedProduct` shows that, run on its own,
  the walk never meets a missing product. The `Vanished` branch models what
  the generic handler would do then: the order stays, with the items
  recorded so far.
- Storage failures caught by the generic `except Exception` of checkout and
  the wishlist views. Only the missing-product case is modelled
  (`ProcessingError`, and the 400 `ProductNotFound` replies).
- `Wishlist.objects.get` returning several rows: the table is a set, so a
  pair is there at most once.
- The error texts of the JSON replies: they are `Reason` codes.
- CheckoutViews.OrderHistory: Django leaves the order of orders with equal
  `created_at` unspecified. The model picks some newest-first order, so it is
  a ghost function that states what every such order satisfies.
- Order items are written to the order when the walk ends, not one row at a
  time. No reader sees the order in between.

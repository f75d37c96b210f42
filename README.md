# kabirclub storefront core, modelled in Dafny

This project models the core of the kabirclub clothing storefront. That is the cart: how
cart rows are stored and changed, and how an order's totals and checkout message are
computed from them. It also covers the small state machines and validation rules around
the cart, and proves properties of each.

The modules and what they model:

- `Storage` (storage.dfy): the in-memory store `MemStorage` of server/storage.ts. Each
  `Map` table is an insertion-ordered list of (id, row) entries with its post-incremented
  id counter. The class covers:
  - cart add (merge or append), update, remove, the session listing and the single-item lookup;
  - the case-insensitive waitlist;
  - product update and delete;
  - the six seeded categories and the slug lookup;
  - the user lookup by e-mail.
- `CartRoutes` (cart_routes.dfy): the `cart_items` table as the HTTP handlers of
  server/routes.ts change it. The table is a class holding the rows and the serial counter.
  - GET is an owner-filtered inner join.
  - POST always inserts.
  - PUT and DELETE act on the id in the body, and clear deletes by user.
  - It also has the `featured`/`trending` flag of the product update and the waitlist
    error-to-status mapping, including the whole `POST /api/waitlist` over `MemStorage`.
- `CartPage` (cart_page.dfy): client/src/pages/cart.tsx.
  - The subtotal loop, shipping, the 14% tax and the grand total, all exact.
  - The quantity-change guard and the minus button.
  - The checkout message.
- `ProductPage` (product_page.dfy): client/src/pages/product.tsx.
  - The quantity stepper and the size selection.
  - The size-required guard and the body posted to the cart.
  - The sizes offered for a product.
- `HeroBanner` (hero_banner.dfy): the three-banner carousel of
  client/src/components/home/hero-banner.tsx, with its animation lock and its auto-rotation,
  as written and as evidently intended.
- `FeaturedCarousel` (featured_carousel.dfy): the clamped window of
  client/src/components/home/featured-products.tsx.
- `AdminDashboard` (dashboard.dfy): the local state of
  client/src/components/admin/dashboard-component.tsx.
  - The category accordion and the product lists per category.
  - The save and delete updates.
  - The product form's size checkboxes.
- `Schema` (schema.dfy): the rules of shared/schema.ts.
  - The `cart_items` row and its insert schema.
  - The price, stock, featured and trending coercions.
  - The registration and login password rules.
- `Auth` (auth.dfy): server/auth.ts.
  - The three access guards.
  - The local strategy.
  - The register and login handlers' order of checks.
  - What the session keeps.
- Support modules:
  - `Wrappers` holds `Option` and `Result`.
  - `Text` holds the decimal rendering and parsing of integers, Postgres's reading of an
    integer parameter, `toFixed(2)` of an exact amount, ASCII case folding, `includes` and
    `join`.
  - `Positions` holds the positions a filter keeps, used to state that a filter keeps order.
  - `OrderedMap` holds a JavaScript `Map` or plain object as a list of entries in
    insertion order, with `get`, `set` and `delete`.

State that the source changes in place is modelled as classes:
- `MemStorage`, the cart table, the banner slider, the carousel strip, the product view,
  the dashboard and the product form.
- Each has `modifies` frames and postconditions stating its whole new state in terms of the
  old one.
- Pure rules are functions, and the properties relating several calls are lemmas.

Modelling conventions:
- Prices and quantities are integers, as the schema declares them. So the grand total is
  kept exactly, in hundredths: `114 * subtotal + 100 * shipping`.
- Whatever the code cannot see is a parameter. That covers:
  - the bcrypt comparison and hash;
  - zod's `.email()` verdict;
  - whether a `fetch` succeeded and what it answered;
  - the viewport (`isMobile`).

The checkout message's symbols are kept as the source file holds them. The shopping-bags,
package and rupee signs and the apostrophe in cart.tsx are stored double-encoded: their
UTF-8 bytes are read back as Windows-1252 text. So the message carries characters such as
`U+00F0 U+0178 U+203A U+00EF U+00B8`, not the signs. `CartPage.ShoppingBags`, `Package`,
`Rupee` and `Greeting` hold exactly those characters.

## Model

| member | source | states |
|---|---|---|
| Storage.QuantityOrOne | server/storage.ts:156-165 | `item.quantity \|\| 1`: a missing or zero quantity counts as 1, and any other quantity is kept |
| Storage.SeedCategories | server/storage.ts:85-92 | there are six seeds, with non-empty slugs that differ pairwise in their first letter |
| Storage.Seeded | server/storage.ts:94-99 | after n seeds the table holds exactly n entries, the j-th under id j+1 with the j-th seed's name, slug and image |
| Storage.MemStorage.constructor | server/storage.ts:64-81 | every table is empty except the categories, which are the six seeds under ids 1..6 with the counter at 7; the cart and waitlist counters are 1, and the store is well formed |
| Storage.MemStorage.InitializeData | server/storage.ts:83-100 | the `forEach` loop stores the seeds in order under ids 1..6 and leaves the category counter at 7 |
| Storage.SeededStep | server/storage.ts:94-98 | one loop step (`set` under the counter) appends exactly the next seeded category |
| Storage.SeededTableOk | server/storage.ts:94-99 | the seeded table has distinct ids, each stored under its own key and below the counter |
| Storage.FindBySlug | server/storage.ts:108 | `find`: none iff no category has the slug; otherwise the first category carrying it |
| Storage.FindBySlugAt | server/storage.ts:108 | when index i is the first with the slug, the lookup returns exactly that category |
| Storage.SeededSlugLookup | server/storage.ts:83-109 | after construction, each seeded slug finds its category under its listed id |
| Storage.MemStorage.GetCategoryBySlug | server/storage.ts:107-109 | none iff no stored category has the slug; otherwise the first stored category, in insertion order, that carries it |
| Storage.FindUserByEmail | server/storage.ts:268-270 | none iff no user's e-mail equals the given one ignoring case; otherwise the first user, in order, whose e-mail matches |
| Storage.MemStorage.GetUserByEmail | server/storage.ts:267-271 | the same lookup over the users table: the first user in insertion order whose e-mail matches ignoring case, and none iff there is none |
| Storage.MemStorage.GetCartItem | server/storage.ts:143-145 | the item stored under that id, and none iff no stored item has that id |
| Storage.SessionItems | server/storage.ts:134 | exactly the items of the session, each as often as the store holds it |
| Storage.SessionItemsInOrder | server/storage.ts:134 | the session's items keep the store's order: they sit at ascending positions of the store, and every item of the session is at one of them |
| Storage.AttachProducts | server/storage.ts:136-140 | succeeds iff every item's product exists; then item i is paired with its product; otherwise fails with the id of the first item, in order, whose product is missing |
| Storage.MemStorage.GetCartItems | server/storage.ts:133-141 | succeeds iff every item of the session has its product; every row returned is a session item with its product, every session item appears, and a failure names the first item of the session, in insertion order, whose product is missing; on success the rows hold each item of the session as often as the store does, at ascending positions of the store |
| Storage.SessionListingOk | server/storage.ts:133-141 | the listing succeeds iff every item of the session has its product, and a failure names the first item of the session without one |
| Storage.SessionFirstMissing | server/storage.ts:134-140 | a failed listing names the item at the first position of the table where an item of the session lacks its product |
| Storage.SessionListingRows | server/storage.ts:134-140 | every row listed is an item of the session with its product |
| Storage.SessionListingOrder | server/storage.ts:134-140 | the rows listed hold exactly the filtered session items, in the store's order |
| Storage.SessionListingComplete | server/storage.ts:134-140 | every item of the session is listed |
| Storage.FirstCartMatch | server/storage.ts:148-153 | none iff no item has the session and product; otherwise a stored item with both |
| Storage.FirstCartMatchIsFirst | server/storage.ts:148-153 | the match is `existingItems[0]`: no earlier item has the session and the product |
| Storage.MemStorage.AddCartItem | server/storage.ts:147-170 | with a match: only that item's quantity grows by `quantity \|\| 1`, the keys and the counter stay; without one: one item is appended under the old counter with quantity `quantity \|\| 1`, and the counter moves by one |
| Storage.CartTableAppend | server/storage.ts:162-168 | storing a row under the counter appends it, and the table stays well formed past the new counter |
| Storage.CartTableOverwrite | server/storage.ts:154-158 | overwriting a stored row under its own id keeps the keys in order and the table well formed |
| Storage.MemStorage.UpdateCartItem | server/storage.ts:172-179 | an unknown id fails with "Cart item not found: id" and changes nothing; otherwise only that item's quantity becomes the given value, with no lower bound |
| Storage.MemStorage.RemoveCartItem | server/storage.ts:181-183 | the table becomes the old table with that key deleted; an absent key changes nothing |
| Storage.CartTableDelete | server/storage.ts:181-183 | deleting a key keeps the cart table well formed |
| OrderedMap.Delete | server/storage.ts:182 | `Map.delete`: the key is gone, every other key reads as before, and an absent key changes nothing |
| OrderedMap.DeleteIdempotent | server/storage.ts:181-183 | removing twice is the same as removing once |
| OrderedMap.Get | server/storage.ts:144 | `Map.get`: none iff the key is absent; otherwise a value stored under it |
| OrderedMap.Set | server/storage.ts:158 | `Map.set`: the key reads the new value and every other key reads as before |
| OrderedMap.SetPresentKeepsKeys | server/storage.ts:158 | overwriting a present key keeps every key where it stands |
| OrderedMap.SetAbsentAppends | server/storage.ts:168 | setting a new key appends one entry at the end |
| OrderedMap.SetKeysDistinct | server/storage.ts:168 | `set` never creates a second entry for a key |
| Storage.WaitlistAppend | server/storage.ts:195-200 | appending an entry whose e-mail is not listed keeps the waitlist's e-mails distinct ignoring case |
| Storage.MemStorage.AddToWaitlist | server/storage.ts:186-202 | an e-mail already listed ignoring case fails with "This email is already on our waitlist" and changes nothing; otherwise the entry is appended under the old waitlist counter, which moves by one |
| Storage.Overlay | server/storage.ts:253 | `{...existing, ...patch}`: the id and the category stay; each of the nine product fields the patch gives wins, and each it leaves out is kept |
| Storage.OverlayIdempotent | server/storage.ts:253 | laying the same patch twice is laying it once |
| Storage.OverlayEmpty | server/storage.ts:253 | an empty patch changes nothing |
| Storage.MemStorage.UpdateProduct | server/storage.ts:247-256 | an unknown id fails with "Product not found: id" and changes nothing; otherwise the stored product is replaced in place by the overlay, keeping the keys |
| Storage.MemStorage.DeleteProduct | server/storage.ts:258-264 | an unknown id fails and changes nothing; otherwise exactly that key is deleted |
| CartRoutes.Matches | server/routes.ts:276-279 | the join of one cart row: exactly the products whose id equals its `product_id` |
| CartRoutes.OwnedJoin | server/routes.ts:268-282 | exactly the joined rows of the user's cart rows whose product exists |
| CartRoutes.CartTable.View | server/routes.ts:250-289 | 401 iff the request is unauthenticated; otherwise exactly the caller's rows whose product exists, each joined with that product |
| CartRoutes.OrphanHidden | server/routes.ts:268-282 | with the serial ids distinct, no row of the view carries the id of a row whose `product_id` is NULL or names no product |
| CartRoutes.ViewIgnoresOtherUsers | server/routes.ts:268-282 | another user's row leaves the caller's view unchanged |
| CartRoutes.CartTable.constructor | shared/schema.ts:80-86 | an empty table whose serial starts at 1 |
| CartRoutes.CartTable.Add | server/routes.ts:292-325 | unauthenticated gives 401 and no change; otherwise one new row is appended under the next serial, never merged, owned by the session user, with quantity defaulting to 1; a `product_id` or `quantity` Postgres cannot read as an integer gives 500 with no row and no serial drawn; a missing size gives 500 with no row, though the serial was drawn |
| Schema.MakeCartRow | shared/schema.ts:80-86 | an insert succeeds iff `user_id` and `size` are given; `quantity` defaults to 1 and `product_id` to NULL |
| CartRoutes.Bind | server/routes.ts:331-337 | a missing or null body value binds as NULL; a number binds iff it fits in 32 bits; a string binds iff Postgres reads it as an integer, with that integer; anything bound lies within 32 bits |
| CartRoutes.CartTable.UpdateQuantity | server/routes.ts:328-343 | no auth check and no lower bound: an `id` or `quantity` Postgres cannot read as an integer gives 500 with no change; otherwise the rows with the body's id get the body's quantity and no other row changes; a missing quantity on an existing row gives 500 with no change |
| CartRoutes.SetQuantity | server/routes.ts:331-337 | same length; the rows with that id have the new quantity, and every other row is unchanged |
| CartRoutes.UpdateKeepsOthers | server/routes.ts:330-338 | every other row survives the update, and any new row is the chosen one with the new quantity, even zero or negative |
| CartRoutes.CartTable.DeleteItem | server/routes.ts:345-359 | exactly the row with the body's id is dropped; a missing or unknown id drops nothing |
| CartRoutes.Keep | server/routes.ts:348-354 | the rows left are exactly the old rows not matched by the WHERE clause, and there are no more of them |
| CartRoutes.KeepInOrder | server/routes.ts:348-354 | the rows left keep their order: they sit at ascending positions of the old table, and every row the WHERE clause does not match is at one of them |
| CartRoutes.KeepIdempotent | server/routes.ts:348-354 | deleting twice is deleting once |
| CartRoutes.KeepValid | server/routes.ts:348-354 | a DELETE keeps the primary key: ids stay distinct and below the serial |
| CartRoutes.CartTable.Clear | server/routes.ts:362-377 | every row of the session user is dropped and no other; an unauthenticated request fails before the query and changes nothing |
| CartRoutes.ClearScope | server/routes.ts:365-372 | after clearing, no row of the user is left, and every row of another user is kept |
| CartRoutes.RouteFlag | server/routes.ts:100-101 | the flag is true iff the value is boolean `true` or the string `"true"` |
| CartRoutes.RouteFlagAgreesWithSchema | server/routes.ts:100-101 | the route's flag is true iff the schema's coercion yields true, and it is false wherever the schema fails |
| CartRoutes.WaitlistErrorStatus | server/routes.ts:436-449 | an invalid body gives 400; a thrown message gives 409 iff it contains "already on our waitlist", and 500 otherwise |
| CartRoutes.DuplicateIsConflict | server/routes.ts:445-446 | the storage's duplicate-email error maps to 409 |
| CartRoutes.PostWaitlist | server/routes.ts:431-451 | a missing field gives 400 and no change; an e-mail listed ignoring case gives 409 and no change; otherwise 201 with the entry appended under the next waitlist id, and only then does the waitlist counter move, by one |
| CartPage.Subtotal | client/src/pages/cart.tsx:124-127 | the sum of price × quantity over the rows, which is not negative when prices and quantities are not |
| CartPage.ComputeSubtotal | client/src/pages/cart.tsx:124-127 | the `forEach` loop computes exactly the sum of price × quantity over the rows |
| CartPage.SubtotalConcat | client/src/pages/cart.tsx:124-127 | the subtotal of two carts put together is the sum of their subtotals |
| CartPage.SubtotalRotate | client/src/pages/cart.tsx:124-127 | moving a row does not change the subtotal |
| CartPage.Shipping | client/src/pages/cart.tsx:131 | 120 iff 0 < subtotal < 1500, otherwise 0 |
| CartPage.Tax | client/src/pages/cart.tsx:132 | exactly 14% of the subtotal |
| CartPage.GrandTotalCents | client/src/pages/cart.tsx:133 | 100 × (subtotal + shipping + tax), exactly, and at least 114 × subtotal |
| CartPage.ShippingBounds | client/src/pages/cart.tsx:131-133 | an empty cart totals 0; 1500 or more ships free; a smaller non-empty order adds 120.00 |
| CartPage.QuantityChange | client/src/pages/cart.tsx:115-119 | no update iff current + change < 1; otherwise the update is for that id, at least 1, and differs from the current quantity by the change |
| CartPage.DecrementDisabled | client/src/pages/cart.tsx:244 | the minus button's `disabled` condition, `itemquantity <= 1`; `QuantityControls` proves it holds exactly when a press issues nothing |
| CartPage.QuantityControls | client/src/pages/cart.tsx:244 | the minus button is disabled exactly when its press would issue nothing, and plus always issues quantity + 1 |
| CartPage.Block | client/src/pages/cart.tsx:343-345 | each row's block opens with the bag sign, the bold name and the size, contains the quantity line and the price line, and ends with the subtotal line, quantity × price |
| CartPage.Blocks | client/src/pages/cart.tsx:343-345 | one block per row, in cart order |
| CartPage.Checkout | client/src/pages/cart.tsx:333-347 | no message iff the cart is empty; otherwise the greeting, the blocks joined by a blank line, and the grand-total line |
| CartPage.CheckoutMentionsEveryRow | client/src/pages/cart.tsx:343-347 | every row's block appears in the message |
| CartPage.CheckoutLength | client/src/pages/cart.tsx:347 | the message is as long as its parts, with one blank line between neighbouring blocks |
| CartPage.SmallOrderExample | client/src/pages/cart.tsx:124-133 | two items at 500 total 126000 hundredths, rendered "1260.00" |
| Text.Fixed2Whole | client/src/pages/cart.tsx:347 | `toFixed(2)` of a whole amount is its decimal text followed by ".00" |
| Text.Fixed2NatRoundTrip | client/src/pages/cart.tsx:347 | the digits before the point of a `toFixed(2)` rendering and the two after it read back to the amount in cents |
| Text.JoinContains | client/src/pages/cart.tsx:347 | every part can be found in `join`'s result |
| ProductPage.Increased | client/src/pages/product.tsx:74 | one more than the quantity |
| ProductPage.Decreased | client/src/pages/product.tsx:75 | one less above 1, and 1 otherwise, so never below 1 |
| ProductPage.DecreaseUndoesIncrease | client/src/pages/product.tsx:74-75 | minus undoes plus, and plus undoes minus above 1 |
| ProductPage.MinusDisabled | client/src/pages/product.tsx:292 | the minus button's `disabled` condition, `quantity <= 1`; `MinusDisabledAtFloor` proves it holds exactly where a press changes nothing |
| ProductPage.MinusDisabledAtFloor | client/src/pages/product.tsx:292 | the minus button is disabled exactly where pressing it would change nothing |
| ProductPage.PressesStayPositive | client/src/pages/product.tsx:74-75 | starting at 1 or more, no sequence of presses goes below 1 |
| ProductPage.PressesBound | client/src/pages/product.tsx:74-75 | n presses raise the quantity by at most n |
| ProductPage.AvailableSizes | client/src/pages/product.tsx:109-111 | none without a size map; otherwise a size is offered iff the map sets it to true |
| ProductPage.Received | client/src/pages/product.tsx:44-48 | the cart handler reads the posted size; the quantity is read iff it fits in 32 bits; the product id is never NULL, and is read iff Postgres reads the route parameter as an integer, with that integer, and refused otherwise |
| ProductPage.ReceivedFromLink | client/src/pages/product.tsx:21-48 | the page opened from `/product/${id}` posts that id back when it fits the `integer` column, and a refused id otherwise |
| ProductPage.ProductView.constructor | client/src/pages/product.tsx:26-27 | the quantity starts at 1 with no size selected |
| ProductPage.ProductView.Increase | client/src/pages/product.tsx:74 | the quantity becomes one more |
| ProductPage.ProductView.Decrease | client/src/pages/product.tsx:75 | the quantity becomes one less, but never below 1 |
| ProductPage.ProductView.SelectSize | client/src/pages/product.tsx:176 | the clicked size replaces any earlier choice |
| ProductPage.ProductView.AddToCart | client/src/pages/product.tsx:36-50 | fails with "Please select size before adding to cart." iff no size, or an empty one, is selected; otherwise the body is the product id, the current quantity and the size |
| ProductPage.PostCarriesSize | client/src/pages/product.tsx:36-50 | whatever the page posts reaches the cart handler with a size, and a quantity of at least 1 that is read unless pressed beyond 32 bits |
| HeroBanner.Banners | client/src/components/home/hero-banner.tsx:16-41 | three banners, with ids 1, 2, 3 in order |
| HeroBanner.BannerLinksAreSeededCategories | client/src/components/home/hero-banner.tsx:23-39 | each banner links to the category page of the seeded category in the same position |
| HeroBanner.NextIndex | client/src/components/home/hero-banner.tsx:56 | (c+1) mod 3: it stays in range and wraps from the last slide to 0 |
| HeroBanner.PrevIndex | client/src/components/home/hero-banner.tsx:61 | (c-1+3) mod 3: it stays in range and wraps from 0 to the last slide |
| HeroBanner.PrevUndoesNext | client/src/components/home/hero-banner.tsx:55-63 | previous undoes next, and next undoes previous |
| HeroBanner.AdvanceIsModular | client/src/components/home/hero-banner.tsx:55-58 | n accepted moves forward land on (i+n) mod 3 |
| HeroBanner.FullRound | client/src/components/home/hero-banner.tsx:55-58 | three moves forward return to the starting slide, and one or two do not |
| HeroBanner.MoveSeeing | client/src/components/home/hero-banner.tsx:48-74 | `goToSlide` against the lock its caller sees: with the lock set nothing changes; otherwise the slide becomes the index and the lock is set, and the interval's closure sees the lock iff the slide changed (the effect re-ran) or it already did |
| HeroBanner.Release | client/src/components/home/hero-banner.tsx:52 | the timeout clears the live lock and keeps the slide and what the interval's closure saw |
| HeroBanner.StaleTick | client/src/components/home/hero-banner.tsx:65-74 | the interval callback as written: with the lock its closure captured set, it changes nothing |
| HeroBanner.Tick | client/src/components/home/hero-banner.tsx:55-58 | the tick evidently intended: under the live lock nothing changes; otherwise the next slide is shown and locked |
| HeroBanner.RotationStallsAfterOneMove | client/src/components/home/hero-banner.tsx:65-74 | as written, any number of periods moves the carousel at most once, and leaves the callback seeing the lock |
| HeroBanner.MoveStopsRotation | client/src/components/home/hero-banner.tsx:48-74 | as written, after a move to another slide by an arrow or a dot, the interval never moves the carousel again |
| HeroBanner.SameDotKeepsRotation | client/src/components/home/hero-banner.tsx:65-74 | a click on the dot of the slide shown changes no slide, so the interval is not re-installed: once the lock is released the rotation goes on as before the click |
| HeroBanner.TwoTicksFromStart | client/src/components/home/hero-banner.tsx:65-74 | two periods from a fresh page show slide 1 as written, slide 2 as intended |
| HeroBanner.RotateAdvances | client/src/components/home/hero-banner.tsx:55-74 | as intended, n periods from an unlocked carousel land on (i+n) mod 3, unlocked |
| HeroBanner.Slider.constructor | client/src/components/home/hero-banner.tsx:44-45 | slide 0, not animating |
| HeroBanner.Slider.GoToSlide | client/src/components/home/hero-banner.tsx:48-53 | while animating nothing changes; otherwise the slide becomes the index and the lock is set |
| HeroBanner.Slider.NextSlide | client/src/components/home/hero-banner.tsx:55-58 | the same, with the next index |
| HeroBanner.Slider.PrevSlide | client/src/components/home/hero-banner.tsx:60-63 | the same, with the previous index |
| HeroBanner.Slider.AnimationEnd | client/src/components/home/hero-banner.tsx:52 | the lock is released and the slide stays in range |
| FeaturedCarousel.Visible | client/src/components/home/featured-products.tsx:21 | 1 on mobile, otherwise 4 |
| FeaturedCarousel.SlideWidth | client/src/components/home/featured-products.tsx:20 | the slide width times the number of visible products is 100% |
| FeaturedCarousel.MaxPositionFor | client/src/components/home/featured-products.tsx:21-27 | never negative; 0 iff all products fit; otherwise the last window ends with the list |
| FeaturedCarousel.PrevPosition | client/src/components/home/featured-products.tsx:29-31 | one less, but never below 0 |
| FeaturedCarousel.NextPosition | client/src/components/home/featured-products.tsx:33-35 | one more, but never above `maxPosition` |
| FeaturedCarousel.PrevDisabled | client/src/components/home/featured-products.tsx:82 | the previous button's `disabled` condition, `position === 0`; `DisabledMeansNoMove` proves it holds exactly when a press would not move the strip |
| FeaturedCarousel.NextDisabled | client/src/components/home/featured-products.tsx:91 | the next button's `disabled` condition, `position >= maxPosition`; `DisabledMeansNoMove` proves it holds exactly when a press would not move the strip |
| FeaturedCarousel.DisabledMeansNoMove | client/src/components/home/featured-products.tsx:82-91 | within range, a button is disabled exactly when pressing it would not move the strip |
| FeaturedCarousel.PressesStayInRange | client/src/components/home/featured-products.tsx:29-35 | no run of presses leaves [0, maxPosition] |
| FeaturedCarousel.NextReachesEnd | client/src/components/home/featured-products.tsx:33-35 | enough presses of next reach the last window |
| FeaturedCarousel.Offset | client/src/components/home/featured-products.tsx:102 | the shift is 0 exactly at position 0, and is not negative at non-negative positions |
| FeaturedCarousel.LastWindowEndsWithList | client/src/components/home/featured-products.tsx:20-27 | at `maxPosition` the window's right edge is the end of the list |
| FeaturedCarousel.Strip.constructor | client/src/components/home/featured-products.tsx:16-17 | position and `maxPosition` start at 0 |
| FeaturedCarousel.Strip.SetProducts | client/src/components/home/featured-products.tsx:23-27 | `maxPosition` is recomputed and the position is left alone |
| FeaturedCarousel.Strip.Prev | client/src/components/home/featured-products.tsx:29-31 | the position becomes the previous position |
| FeaturedCarousel.Strip.Next | client/src/components/home/featured-products.tsx:33-35 | the position becomes the next position |
| AdminDashboard.Toggled | client/src/components/admin/dashboard-component.tsx:60-62 | collapsed iff this category was expanded; otherwise this category is expanded |
| AdminDashboard.ToggleTwice | client/src/components/admin/dashboard-component.tsx:60-62 | toggling twice restores the state iff it was collapsed or had this category expanded; from another category it collapses |
| AdminDashboard.Dashboard.constructor | client/src/components/admin/dashboard-component.tsx:34-37 | nothing expanded, no products, dialog closed, no current product |
| AdminDashboard.Dashboard.ToggleCategory | client/src/components/admin/dashboard-component.tsx:60-62 | the expanded category becomes the toggled one |
| AdminDashboard.Dashboard.OpenProductModal | client/src/components/admin/dashboard-component.tsx:65-70 | the current product is set and the dialog opens; a truthy category is expanded, and otherwise the expansion is kept |
| AdminDashboard.Dashboard.CloseModal | client/src/components/admin/dashboard-component.tsx:247 | the dialog closes |
| AdminDashboard.Dashboard.LoadProducts | client/src/components/admin/dashboard-component.tsx:40-57 | a failed fetch keeps the products; otherwise each category name is set to its list, in order |
| AdminDashboard.CategoryNamesDistinct | client/src/components/admin/dashboard-component.tsx:23-30 | the six category names are pairwise different, so each gets its own key |
| AdminDashboard.AvailableSizesDistinct | client/src/components/admin/dashboard-component.tsx:19 | the six offered sizes are pairwise different |
| OrderedMap.SetAllPrefix | client/src/components/admin/dashboard-component.tsx:44-49 | folding one more key into the accumulated object is one more assignment |
| AdminDashboard.LoadedLists | client/src/components/admin/dashboard-component.tsx:40-57 | after a load each name holds its own list, and the keys are the six names in order |
| OrderedMap.SetAllDistinct | client/src/components/admin/dashboard-component.tsx:44-49 | setting distinct keys in turn lists each key once, in order, with its value |
| AdminDashboard.SaveTarget | client/src/components/admin/dashboard-component.tsx:75-91 | editing sends PUT to `/api/products/{id}` and adding sends POST to `/api/products`; the body's category is the product's truthy category, otherwise the expanded one |
| AdminDashboard.SaveUrlNamesProduct | client/src/components/admin/dashboard-component.tsx:75-77 | the edited product's id reads back from the PUT address |
| AdminDashboard.ListAt | client/src/components/admin/dashboard-component.tsx:100 | `products[key] \|\| []`: the stored list, or empty without one |
| AdminDashboard.FindIndex | client/src/components/admin/dashboard-component.tsx:103 | -1 iff no product has the id; otherwise the first index with it |
| AdminDashboard.ReplaceFirst | client/src/components/admin/dashboard-component.tsx:102-107 | same length; the first product with the id is replaced, and every other element stays |
| AdminDashboard.ReplaceAt | client/src/components/admin/dashboard-component.tsx:103-106 | replacing the first match is writing at the index `findIndex` returns |
| AdminDashboard.ReplaceMissing | client/src/components/admin/dashboard-component.tsx:104-106 | with no product of that id the list is unchanged |
| AdminDashboard.Updated | client/src/components/admin/dashboard-component.tsx:101-111 | a new product is appended; an edit keeps the length, writes the answer at the found index, and changes nothing when the id is missing |
| AdminDashboard.KeyOf | client/src/components/admin/dashboard-component.tsx:100 | the object key of the answer's category |
| AdminDashboard.Dashboard.Save | client/src/components/admin/dashboard-component.tsx:94-116 | a failed answer changes nothing; otherwise the answer's category list becomes the updated list and the dialog closes |
| AdminDashboard.Without | client/src/components/admin/dashboard-component.tsx:131 | exactly the products with another id |
| AdminDashboard.WithoutIdempotent | client/src/components/admin/dashboard-component.tsx:131 | deleting the same product twice is deleting it once |
| AdminDashboard.Dashboard.DeleteProduct | client/src/components/admin/dashboard-component.tsx:123-138 | only after a successful answer, and only for a category with a list, does that list lose every product with the id |
| AdminDashboard.DeleteScope | client/src/components/admin/dashboard-component.tsx:129-134 | the category holds no product with the id afterwards, and every other category is unchanged |
| AdminDashboard.AllUnchecked | client/src/components/admin/dashboard-component.tsx:266-269 | every entry of the initial size map is unchecked and names a listed size |
| AdminDashboard.DefaultSizes | client/src/components/admin/dashboard-component.tsx:266-269 | a new product's form starts with XS, S, M, L, XL and XXL, all unchecked, in that order |
| AdminDashboard.ProductForm.constructor | client/src/components/admin/dashboard-component.tsx:256-270 | the product's own size map when it has one, and the all-unchecked map otherwise |
| AdminDashboard.Flipped | client/src/components/admin/dashboard-component.tsx:280-288 | the size becomes checked iff it was not, and every other size reads as before |
| AdminDashboard.FlipTwice | client/src/components/admin/dashboard-component.tsx:280-288 | flipping a listed size twice restores the map, entry order included |
| AdminDashboard.FlipAbsent | client/src/components/admin/dashboard-component.tsx:280-288 | flipping an unlisted size appends it checked, and flipping again leaves it unchecked |
| AdminDashboard.ProductForm.HandleSizeChange | client/src/components/admin/dashboard-component.tsx:280-288 | the size map becomes the flipped map |
| OrderedMap.SetTwice | client/src/components/admin/dashboard-component.tsx:280-288 | of two writes to the same key only the second counts |
| OrderedMap.SetSame | client/src/components/admin/dashboard-component.tsx:280-288 | writing the value a key already has changes nothing |
| Schema.CoerceNumber | shared/schema.ts:53-56 | a string goes through `Number` first: "" is 0, and other text succeeds iff it reads as an integer, with that integer; a number passes through; anything else fails |
| Schema.CoerceNumberText | shared/schema.ts:53-64 | a number sent as its decimal text coerces to the number itself |
| Text.ParseInt | shared/schema.ts:54 | `Number` on a form string: "" reads as 0; any other text it reads begins with a digit or '-' and ends with a digit, and a negative value comes only from a leading '-' |
| Text.Lower | server/storage.ts:188 | `toLowerCase` over ASCII: same length, each capital folded to its lower-case letter, every other character kept, and no capital left |
| Text.IntToStringRoundTrip | shared/schema.ts:54 | reading back an integer's decimal text yields the integer |
| Text.PgInt | server/routes.ts:305-311 | Postgres reads an integer parameter only when it holds a digit, and only within 32 bits |
| Text.PgIntReadsRendered | server/routes.ts:305-311 | Postgres reads back an integer's decimal text iff the integer fits in 32 bits |
| Text.PgIntSkipsBlanks | server/routes.ts:305-311 | a blank before or after the text does not change what Postgres reads |
| Text.PgIntSkipsPlus | server/routes.ts:305-311 | a '+' before the digits does not change what Postgres reads |
| Text.PgIntAgreesWithNumber | server/routes.ts:305-311 | where `Number` reads an integer within 32 bits Postgres reads the same one, except that it refuses the empty string, which `Number` reads as 0 |
| Schema.CoerceBool | shared/schema.ts:65-72 | a string becomes `val === 'true'` and a boolean passes through; anything else fails; the result is true iff the value is `true` or `"true"` |
| Schema.CoerceBoolText | shared/schema.ts:65-72 | any text other than exactly "true" coerces to false, never to an error |
| Schema.ProductFromFields | shared/schema.ts:52-73 | succeeds iff all four coercions do, with their values; otherwise every failing field and no other is reported, in schema order, `price` first and `trending` last |
| Schema.CoerceProductFields | shared/schema.ts:52-73 | the same, applied to the body's keys |
| Schema.GatherReports | shared/schema.ts:52-73 | zod's collected issues of four fields: none iff every check passes; one on each failing field's path and on no other; the first field's issue first and the last field's last |
| Schema.ProductFieldsFromText | shared/schema.ts:52-73 | a form sending every field as text parses to the numbers and flags it spelled |
| Schema.OptionalInt | shared/schema.ts:81-83 | succeeds iff the value is absent or a number; absent is none, and a number is kept |
| Schema.NullableInt | shared/schema.ts:82 | succeeds iff the value is absent, `null` or a number; absent is none, `null` is NULL, and a number is kept |
| Schema.RequiredInt | shared/schema.ts:84 | succeeds iff the value is a number, which is kept; an absent value fails as "Required" |
| Schema.CartItemFromFields | shared/schema.ts:88-93 | succeeds iff the `id`, `quantity`, `product_id` and `user_id` checks all pass, with their values; `user_id` is required; the quantity is present iff the body gives one; otherwise every failing field and no other is reported |
| Schema.ParseCartItem | shared/schema.ts:88-93 | the same, applied to the body's keys |
| Schema.ParseCartItemIgnoresSize | shared/schema.ts:88-93 | the insert schema never looks at `size` |
| Schema.RegistrationIssues | shared/schema.ts:150-159 | no issue iff the password has 8 or more characters and equals the confirmation; a short password and a mismatch, reported on `confirmPassword`, are each reported iff they occur |
| Schema.LoginIssues | shared/schema.ts:161-164 | no issue iff the e-mail passes and the password is non-empty; each issue is reported iff it occurs |
| Schema.RegistrationPasswordLogsIn | shared/schema.ts:150-164 | any password registration accepts, login accepts too |
| Auth.IsAuthenticated | server/auth.ts:307-316 | next iff authenticated, otherwise 401 |
| Auth.IsAdmin | server/auth.ts:319-336 | next iff an authenticated admin; 401 when unauthenticated, whatever the role; 403 for other authenticated users |
| Auth.AdminRoutesGate | server/auth.ts:263-280 | next iff an authenticated admin; 401 when unauthenticated; 404, not 403, for other authenticated users |
| Auth.AdminGuardsDiffer | server/auth.ts:263-280 | the two admin guards disagree exactly on signed-in non-admins, with 403 against 404 |
| Auth.AdminIsAuthenticated | server/auth.ts:307-336 | whoever `isAdmin` lets through, `isAuthenticated` lets through |
| Auth.FindByEmail | server/auth.ts:284-304 | none iff no row has exactly that e-mail; otherwise a row that has it |
| Auth.Authenticate | server/auth.ts:43-76 | a failure always says "Incorrect email or password"; success iff the e-mail is found and the password matches; the user returned carries no hash |
| Auth.Login | server/auth.ts:187-230 | an invalid body gives 400 before any credential check; with a valid body the strategy's user is logged in iff the strategy accepts, and otherwise its refusal, with its message, is the answer |
| Auth.LoginStatus | server/auth.ts:187-230 | 200 iff logged in; 400 for an invalid body and 401 for a refusal |
| Auth.InvalidLoginIgnoresUsers | server/auth.ts:189-197 | an invalid body gets the same 400 whatever the users table holds |
| Auth.UnknownEmailLikeWrongPassword | server/auth.ts:54-62 | an unknown e-mail and a wrong password are indistinguishable |
| Auth.Register | server/auth.ts:113-185 | schema issues give 400; then an existing e-mail gives 400; only then is a user created, always as a customer with the given hash |
| Auth.RegisterStatus | server/auth.ts:113-185 | 201 iff a user is created, and 400 for a schema issue or an e-mail already registered |
| Auth.RegisterIgnoresRole | server/auth.ts:142-149 | the role in the body changes nothing, and every new account is a customer |
| Auth.Serialize | server/auth.ts:79-81 | the session keeps the user id |
| Auth.Deserialize | server/auth.ts:85-110 | none iff no row has the id; otherwise that row without its hash |
| Auth.SessionRoundTrip | server/auth.ts:65-110 | a logged-in user read back from the session is the same user |

## Left out

- Persistence and I/O are not modelled: the Postgres pool, drizzle queries, `fetch`, `window.open`, the WhatsApp address and `encodeURIComponent`. The SQL `cart_items` and `products` tables are lists of rows.
- bcrypt, passport's session machinery and zod's `.email()` check are opaque. They are parameters: a hash, a `matches` function and an `emailOk` flag.
- `MemStorage.addProduct`, `createUser`, `submitContactMessage`, `getUserById`, `getAllUsers` and the plain product getters are not part of this model. The first two write through to the database, and `addProduct` relies on a product counter that is never initialised.
- The number forms of JavaScript's `Number(string)` beyond an optional minus sign and decimal digits are not modelled. That covers surrounding whitespace, decimals, exponents and hexadecimal. They are treated as NaN. Only integer amounts are modelled, as the schema declares them.
- Schema.CoerceProductFields: the other fields of the product insert schema and its `passthrough` of unknown keys are not modelled.
- Schema.RegistrationIssues: only the password rules are modelled. A missing required field, which stops zod before the refinement, is not. The password's length is counted in characters (Unicode scalar values), while zod's `.min(8)` counts UTF-16 code units: a password of four characters outside the Basic Multilingual Plane, such as four emoji, passes zod but is reported short here.
- Schema.ParseCartItem: a JSON `null` for `quantity` and values other than numbers in the integer columns are reported as failures without zod's exact messages.
- CartRoutes.CartTable.Add: a `quantity` or `size` sent as JSON `null` is not modelled separately from an absent one.
- CartRoutes.Bind: JSON numbers are integers in this model, so a fraction, which Postgres refuses, is not modelled, nor is a JSON object. The database driver is server/db.ts, which is not part of this model; a bound value is taken to be sent as its text.
- ProductPage.Received: the route parameter is taken as the router hands it; its decoding of percent escapes is not modelled. `Text.PgInt` follows the integer input of Postgres before version 16: the underscores between digits and the `0x`, `0o` and `0b` prefixes that version 16 also reads are refused.
- CartRoutes.OwnedJoin: the order of the joined rows is not stated. SQL gives no order without `ORDER BY`; the model states the set of rows.
- CartRoutes.CartTable.DeleteItem and CartRoutes.CartTable.Clear: the HTTP status is not modelled. Both handlers call `.status` on the query result, so they answer 500 after the rows are deleted.
- The random session id of `getSessionId` is unused by the handlers and not modelled.
- CartPage.Tax: JavaScript's floating-point rounding of `subtotal * 0.14` is not modelled. The tax is exact, and `toFixed(2)` renders the exact amount.
- HeroBanner.Slider: the 500 ms timeout and the 5 s interval are events, `AnimationEnd` and `NextSlide`. The class runs each tick as evidently intended, against the live lock; the tick as written, with the lock its closure captured, is `StaleTick` (see Findings). The timers' timing and the interval's reset on a change of slide are not modelled.
- Storage.Overlay: `Partial<InsertProduct>` carries the keys the product schema's `passthrough` lets through, so a patch holding `id`, `categoryId` or any other key would spread it over the product too. The patch type holds only the nine product fields, and the model keeps the id and the category.
- Storage.MemStorage.AddCartItem and Storage.MemStorage.AddToWaitlist: the `createdAt: new Date()` stamp on a new cart item and a new waitlist entry is a clock reading and is not modelled.
- ProductPage.AvailableSizes: it states which sizes are offered, not their order. The insertion order of `Object.keys` and the truthiness of non-boolean size values are not modelled.
- ProductPage.ProductView: the colour selection and the product query are not modelled.
- AdminDashboard.Dashboard.Save: the mutation in place of the list shared with the previous state, through index assignment and `push`, is modelled as a new list. The aliasing is not modelled.
- AdminDashboard.Dashboard.LoadProducts: the per-category request address and a partial failure are not modelled. Any failed request leaves `products` unchanged.
- AdminDashboard.ProductForm: only the size checkboxes are modelled. `handleChange` and the other fields' initial values are not.
- The bundled build dist/index.js is not part of this model. It answers 403 where server/auth.ts answers 404 in the admin middleware; the model follows server/auth.ts.
- Auth.Register and Auth.Login: the 500 answers for an exception are not modelled. That covers a `req.login` failure after registration and an error thrown by storage or by passport. In the model, storage and the session do not fail.
- Concurrency is not modelled: racing inserts and updates to the cart table, and interleaved `fetch` answers.
- Case folding is ASCII only, in `Text.Lower`. JavaScript's `toLowerCase` also folds other letters.

## Findings

| source | as written | input that shows it | evidently intended | confidence | as-written member | corrected member |
|---|---|---|---|---|---|---|
| client/src/components/home/hero-banner.tsx:65-74 | the effect re-installs the interval only when `currentSlide` changes, in the render where the move has just set `isAnimating`; the 500 ms release re-renders without re-installing it, so the callback's `goToSlide` sees a stale lock and returns on every later tick | a fresh home page left alone for 10 s: the first tick shows banner 2, the second tick changes nothing, and no later tick moves the banner | the banner advances one slide every 5 s | medium, not executed | HeroBanner.TwoTicksFromStart | HeroBanner.RotateAdvances |

# ORA storefront core, modelled in Dafny

ORA is a Next.js storefront for jewellery. This project models the server and client logic
behind its shop. Each part maps to a module:

- `Utils`: the shared utility file's pure helpers (slugs, discount, phone checks, truncation,
  initials, phone formatting).
- `Auth`: session verification and the `requireAuth` wrapper.
- `Orders` and `Pricing`: the order handler, with authoritative pricing, shipping, 18% tax, the ₹1 tolerance
  check, the stock decrements and the loyalty ledger.
- `Checkout`: the checkout page's totals, its address form and the order request its "Place Order" button sends.
- `GuestCart`: the guest branch of the cart container.
- `CartApi`: the signed-in cart handlers and cart clearing.
- `FavoritesApi` and `FavoritesClient`: the favourites handlers and the client favourites container.
- `AdminProducts` and `AdminCategories`: the admin product and category listings and creation.
- `ProductsApi` and `CategoriesApi`: the public product and category listings.
- `Register`: registration.
- `Newsletter`: the newsletter subscription.
- `HeroSlides`: the admin hero-slide endpoints.

Shared modules:

- `Wrappers`: `Option`, `Response` and JavaScript's `||` defaults.
- `Schema`: the table rows and fresh ids.
- `Text`: ASCII case mapping, JavaScript `trim` and run collapsing.
- `Seqs`: find, filter, remove-at and sum.
- `Sorting`: a stable sort and the orders it sorts by.
- `Paging`: page, limit, skip and `totalPages`.
- `Catalogue`: the slug the admin routes derive, the product `where` clause and `orderBy`, and the listing lemmas.

How the database and the environment are represented:

- Every database table is a sequence of rows.
- A handler is a pure function from the tables and the request to the response and the new tables.
- A signed-in caller is the outcome of `verifyAuth`, passed as `AuthResult`.
- The clock (`now`) is a parameter.
- The JWT decoder, the token signer and bcrypt are function parameters.
- Prices are whole rupees.
- `Math.round(x * 0.18)` and `Math.floor(x / 100)` are computed exactly on integers.

## Model

| member | source | states |
|---|---|---|
| Schema.NextId | src/app/api/admin/products/route.js:131-154 | the id a create allocates is positive and larger than every id already in the table, so it is fresh |
| Schema.FindActiveProduct | src/app/api/orders/route.js:50-55 | the lookup returns a row of the table with that id that is active, and none only when no active row has that id |
| Text.Lower | src/app/api/admin/products/route.js:99 | `toLowerCase()` maps every character to its lower case and keeps the length |
| Text.Upper | src/app/api/orders/route.js:118 | `toUpperCase()` maps every character to its upper case and keeps the length |
| Text.Trim | src/lib/utils.js:85 | `trim()` yields a contiguous slice of the input with no white space at either edge, empty exactly when the input is all white space |
| Text.TrimDropsOnlySpace | src/lib/utils.js:85 | everything `trim()` drops before and after that slice is white space, so the slice is the longest one with non-space edges |
| Seqs.Filter | src/app/api/products/route.js:17-27 | a `where` clause keeps every matching row and only matching rows, as a subsequence of the table, and returns as many rows as the table has matching rows (`CountWhere`), so each matching row is kept as often as the table holds it |
| Seqs.IndexOf | src/contexts/CartContext.js:126-135 | `find` returns the first position whose element satisfies the test, or none when no element does |
| Sorting.Sort | src/app/api/products/route.js:41-43 | `orderBy` returns a permutation of the selected rows |
| Sorting.SortSorted | src/app/api/products/route.js:41-43 | for a total, transitive order, that permutation is sorted |
| Paging.TotalPages | src/app/api/products/route.js:55 | `Math.ceil(total / limit)`: the fewest pages of `limit` rows that hold `total` rows, zero exactly for no rows |
| Paging.Window | src/app/api/products/route.js:44-45 | `skip`/`take` yields at most `take` consecutive rows starting at `skip`, and nothing past the end |
| Paging.Paginate | src/app/api/products/route.js:7-14 | page and limit default when falsy; a page or limit below 1 fails with 500 (for a negative limit this differs from the source, see "## Left out"); otherwise the page holds the `limit` rows at `(page - 1) * limit` onwards (`PageRows`), with the full count |
| Paging.RowOnItsPage | src/app/api/products/route.js:14 | every row appears on the page its position predicts, and that page is within `totalPages` |
| Auth.FindUser | src/lib/auth.js:16-25 | the user lookup returns a row with the decoded id, or none when the table has no such row |
| Auth.VerifyAuth | src/lib/auth.js:6-35 | each failure carries its own message: no token exactly when the cookie is absent or empty, 'Invalid token' exactly when decoding fails, 'User not found or inactive' exactly when the row is missing or inactive; success carries an active user with the decoded id, and a token that decodes to an active user's id always succeeds with that user's selected fields |
| Auth.Authorize | src/lib/auth.js:39-55 | an auth failure exactly gives 401 with its error; a non-admin exactly gives 403 when admin is required; otherwise the request passes with the verified user |
| Auth.RequireAuth | src/lib/auth.js:39-62 | a denied request answers 401 or 403 with the state untouched; an allowed one is exactly the handler's outcome |
| Auth.DeniedRequestIgnoresHandler | src/lib/auth.js:43-55 | a denied request's outcome does not depend on the handler, and it changes nothing |
| Pricing.UnitPrice | src/app/api/orders/route.js:73 | a null or zero sale price falls back to the list price; any other sale price is used |
| Pricing.Shipping | src/app/api/orders/route.js:87 | shipping is free exactly when the subtotal is above ₹5000, and ₹200 otherwise |
| Pricing.Tax | src/app/api/orders/route.js:88 | the tax is within half a rupee of 18% of the subtotal, a half rounding up |
| Pricing.TaxIsNearestInteger | src/app/api/orders/route.js:88 | only one integer has that property, so the tax is exactly `Math.round(subtotal * 0.18)` |
| Pricing.GrandTotal | src/app/api/orders/route.js:87-89 | the total charged is the subtotal plus shipping plus tax; its values are pinned by `Pricing.WorkedExamples` |
| Pricing.LoyaltyPoints | src/lib/utils.js:57-60 | one point per full ₹100: `100 * points <= amount < 100 * (points + 1)` |
| Pricing.LoyaltyPointsMonotone | src/lib/utils.js:57-60 | a larger amount never earns fewer points |
| Pricing.WorkedExamples | src/app/api/orders/route.js:87-89 | ₹4000 of goods: ₹200 shipping, ₹720 tax, ₹4920 in total and 49 points; ₹5000 still pays shipping, ₹5001 does not |
| Orders.PriceLines | src/app/api/orders/route.js:49-82 | the lines are accepted exactly when every line passes; a rejection comes from the first failing line; on acceptance there is one line per request line at the authoritative unit price, and the subtotal is the reference sum |
| Orders.PriceLinesLoop | src/app/api/orders/route.js:49-82 | the handler's accumulating loop computes the same outcome as the line-by-line definition |
| Orders.PrefixPassesThenFails | src/app/api/orders/route.js:49-71 | when the lines before position i pass and line i fails, the answer is line i's error |
| Orders.WithinTolerance | src/app/api/orders/route.js:94 | `Math.abs(finalTotal - total) > 1` is false: the client total is within ₹1 of the server's, or absent, since NaN compares false |
| Orders.ParsePaymentMethod | src/app/api/orders/route.js:118 | the method is stored exactly when its upper-case form is COD, UPI or GOOGLEPAY |
| Orders.LowerCaseMethodsAccepted | src/app/api/orders/route.js:118 | the page's 'cod', 'upi' and 'googlepay' map to the COD, UPI and GOOGLEPAY values |
| Orders.DecrementStock | src/app/api/orders/route.js:139-148 | after all the decrements, each product's stock has dropped by the quantity the order lines take from it, and nothing else changed |
| Orders.PlaceOrder | src/app/api/orders/route.js:5-190 | any rejection leaves the orders, products and ledger tables exactly as they were |
| Orders.PlaceOrderAcceptedIff | src/app/api/orders/route.js:9-118 | an order is accepted exactly when all of these hold: the caller is signed in; the item list is non-empty; the address has a name and an email; every line passes; the client total is within ₹1 of the server's; the payment method is known |
| Orders.EarlyRejectionsIgnoreTables | src/app/api/orders/route.js:9-41 | the authentication, empty-list and address rejections come before any lookup, with their own status and message, whatever the tables hold |
| Orders.FirstFailingLineRejects | src/app/api/orders/route.js:49-71 | the first line naming a missing or inactive product gives 404 `Product <id> not found`; the first line short of stock gives 400 `Insufficient stock for <name>` |
| Orders.PriceLinesIgnoresClientPrice | src/app/api/orders/route.js:73-81 | two line lists that differ only in their client-sent prices price identically |
| Orders.ClientLinePriceIgnored | src/app/api/orders/route.js:121-127 | the order's response and writes do not depend on the client's per-line prices |
| Orders.QtyForMatchesRequest | src/app/api/orders/route.js:139-148 | the quantity the stored lines take from a product is the quantity the request lines ask for it |
| Orders.AcceptedOrderRecord | src/app/api/orders/route.js:109-136 | an accepted order appends one row. It has a fresh id and the caller's id. Its status is PENDING. Its payment status is PENDING exactly for 'cod'. It has the parsed method, the server subtotal, shipping, tax and total, and the submitted address. It has one line per request line at the active product's unit price. The response reports that row. |
| Orders.AcceptedOrderStock | src/app/api/orders/route.js:139-148 | an accepted order lowers each product's stock by the quantity requested of it, summed over repeated lines, and changes nothing else |
| Orders.AcceptedOrderLedger | src/app/api/orders/route.js:158-169 | the points reported are `floor(total / 100)`; one EARNED ledger entry for this user and order is appended exactly when they are positive |
| Orders.RepeatedLinesNotAggregated | src/app/api/orders/route.js:65-71 | each line is stock-checked alone: two lines for the last unit of one product are both accepted and the stock ends at -1 |
| Checkout.PageTotals | src/app/checkout/page.js:119-123 | the page total is the cart total plus shipping (free exactly above ₹5000) plus 18% tax rounded to the nearest rupee |
| Checkout.SubmitAddress | src/app/checkout/page.js:127-161 | the form moves to step 2 exactly when the address is accepted; otherwise the step is kept and the toast names the first failing check (required fields, email, mobile, pincode) |
| Checkout.ValidEmail | src/app/checkout/page.js:140 | `/^[^\s@]+@[^\s@]+\.[^\s@]+$/`: the email splits as A@B.C, each part a non-empty run without white space or '@'; `Checkout.ValidEmailShape` and `Checkout.EmailExamples` state what follows |
| Checkout.ValidMobile | src/app/checkout/page.js:147 | `/^[6-9]\d{9}$/`: ten digits, the first from 6 to 9 |
| Checkout.ValidPincode | src/app/checkout/page.js:154 | `/^\d{6}$/`: six digits |
| Checkout.ValidEmailShape | src/app/checkout/page.js:140-144 | an accepted email has no white space and exactly one '@', neither first nor last, with a '.' after it |
| Checkout.EmailExamples | src/app/checkout/page.js:140-144 | 'a@b.in' is accepted; 'a@b', 'a@@b.in' and 'a b@c.in' are refused |
| Checkout.AcceptedAddressPassesServer | src/app/checkout/page.js:131-137 | an address the form accepts has the full name and email the order handler requires |
| Checkout.PlaceOrderClick | src/app/checkout/page.js:636-678 | nothing is sent exactly when UPI is chosen and the transaction id is all white space; UPI sends 'upi' and cash on delivery sends 'cod', each with the cart lines, the address and the page total |
| Checkout.CartTotalIsServerSubtotal | src/app/checkout/page.js:119-123 | when every snapshot is current, the page's cart total equals the subtotal the server computes from the lines it receives |
| Checkout.CheckoutOrderAccepted | src/app/api/orders/route.js:49-100 | a signed-in customer is accepted when all of these hold: the cart is non-empty; the snapshots are current; stock covers each line; the address is accepted; the body is the one the "Place Order" button sends with 'upi' or 'cod'. As a fact about the server alone, the same body with 'googlepay' is accepted too. |
| Checkout.CoveredLinesPass | src/app/api/orders/route.js:57-71 | cart lines whose products are active and in stock pass the server's per-line checks |
| Checkout.StaleSnapshotRejected | src/app/api/orders/route.js:94-100 | for every cart that is covered by stock and has an accepted address: when the page's total is more than ₹1 from the total the server computes from its own prices, the order is refused with 400 'Total amount mismatch' |
| Checkout.RaisedListPriceRejected | src/app/api/orders/route.js:94-100 | one instance: a ring carted at a list price of ₹900, since raised to ₹1000 with no sale price, gives a page total of ₹1262 against the server's ₹1380, and the order is refused |
| GuestCart.AddToCart | src/contexts/CartContext.js:122-167 | a failed fetch or an unknown product is refused with the cart unchanged, and a product the fetched list holds is always added. A product already in the cart has only its lines' quantities raised, each line keeping its id, product and place. Any other is appended as one `guest_<id>` line with the fetched product. Storage always mirrors the result. |
| GuestCart.RemoveFromCart | src/contexts/CartContext.js:235-245 | removal keeps every other line in order and drops every line of the product, so the cart shrinks by exactly the number of the product's lines; storage mirrors the result |
| GuestCart.UpdateQuantity | src/contexts/CartContext.js:175-215 | a quantity of 0 or less is exactly a removal; a positive one sets only the product's lines and keeps every other line where and as it was |
| GuestCart.ClearCart | src/contexts/CartContext.js:267-271 | clearing leaves no items and removes the storage key |
| GuestCart.CartTotal | src/contexts/CartContext.js:279-284 | `getCartTotal`: the sum over the lines of `salePrice || price` times quantity; `Checkout.CartTotalIsServerSubtotal` relates it to the server's subtotal |
| GuestCart.CartCount | src/contexts/CartContext.js:286-288 | `getCartCount`: the sum of the lines' quantities; the count lemmas below state how each operation moves it |
| GuestCart.AddKeepsProductsUnique | src/contexts/CartContext.js:137-154 | a guest add keeps at most one line per product |
| GuestCart.AddRaisesCount | src/contexts/CartContext.js:286-288 | on a cart with one line per product, a successful add raises `getCartCount` by exactly the added quantity |
| GuestCart.RemoveLowersCount | src/contexts/CartContext.js:286-288 | removing a product lowers `getCartCount` by the quantity its lines held |
| GuestCart.UpdateSetsCount | src/contexts/CartContext.js:286-288 | setting a positive quantity moves `getCartCount` from the product's old quantity to the new one |
| CartApi.FindRow | src/app/api/cart/route.js:76-83 | the compound-key lookup finds a row of this user and product, or none when no such row exists |
| CartApi.GetCart | src/app/api/cart/route.js:5-42 | an anonymous caller gets an empty cart with 200; a signed-in one gets a permutation of exactly their own rows |
| CartApi.GetCartOwnRowsNewestFirst | src/app/api/cart/route.js:12-32 | the listing holds exactly the caller's rows, newest first |
| CartApi.AddItem | src/app/api/cart/route.js:44-124 | the checks give 401, 400 (missing id or quantity ≤ 0) and 404 (product missing or inactive), each writing nothing. On success, an existing row of the caller for the product has its quantity raised in place; otherwise one row with a fresh id, the caller, the product, the quantity and the clock is appended. The reply is 200 with the row as stored. |
| CartApi.UpdateItem | src/app/api/cart/route.js:126-183 | 401 and 400 (missing id or negative quantity); a missing row makes the write fail with 500; quantity 0 deletes the row; a positive quantity replaces only that row's quantity; an absent one changes nothing |
| CartApi.RemoveItem | src/app/api/cart/route.js:185-221 | 401, 400 'Product ID required', and 500 for a missing row; otherwise exactly the caller's row for the product is removed |
| CartApi.ClearCart | src/app/api/cart/clear/route.js:5-29 | a signed-in clear answers 'Cart cleared successfully' and leaves no row of the caller; an anonymous one gets 401 and writes nothing |
| CartApi.HandlersKeepOthersRows | src/app/api/cart/route.js:44-221 | no cart handler changes another user's rows, in content or in order |
| CartApi.HandlersKeepOnePerPair | src/app/api/cart/route.js:76-116 | every cart handler keeps the (userId, productId) pairs unique |
| CartApi.AddedQuantityAccumulates | src/app/api/cart/route.js:85-116 | after an accepted add, the caller's row for the product holds the old quantity (0 when new) plus the added amount |
| CartApi.ClearIdempotentAndEmpty | src/app/api/cart/clear/route.js:15-21 | clearing twice is clearing once, and a cleared cart lists as empty |
| FavoritesApi.FindFavorite | src/app/api/favorites/route.js:78-84 | the lookup finds this user's row for the product, or none when there is no such row |
| FavoritesApi.GetFavorites | src/app/api/favorites/route.js:5-44 | an anonymous caller gets an empty list with 200; a signed-in one gets their visible favourites |
| FavoritesApi.VisibleFavoritesExactly | src/app/api/favorites/route.js:12-35 | the listing holds exactly the caller's rows whose product still exists and is active, newest first |
| FavoritesApi.SortedOwnRows | src/app/api/favorites/route.js:12-32 | the caller's rows, once ordered, are exactly the table's rows of that caller |
| FavoritesApi.AddFavorite | src/app/api/favorites/route.js:46-121 | the checks give 401, 400 'Product ID is required' and 404, each writing nothing; a second save answers 200 'Product already in favorites' without a favourite and writes nothing; a first save appends one row for this user and product, with an id above every existing id and `createdAt` the request time (the database defaults), and returns it |
| FavoritesApi.RemoveFavorite | src/app/api/favorites/route.js:123-163 | 401, then 400, then 500 'Failed to remove from favorites' when the row is missing; otherwise exactly that row is deleted |
| FavoritesApi.AddFavoriteIdempotent | src/app/api/favorites/route.js:78-92 | saving a product twice leaves the table as saving it once |
| FavoritesApi.AddThenRemoveRestores | src/app/api/favorites/route.js:95-150 | saving a product not yet saved and then removing it restores the table |
| FavoritesApi.WritesKeepOnePerPair | src/app/api/favorites/route.js:78-113 | both writes keep the (userId, productId) pairs unique |
| FavoritesClient.AddAsWritten | src/contexts/FavoritesContext.js:50-87 | as written, a signed-out caller is refused; success is exactly the server's OK; the server table is exactly the handler's; a failure keeps the list; every OK reply appends exactly the reply's `favorite`, keeping the earlier entries, so the 'already in favorites' reply, which carries none, appends an absent entry |
| FavoritesClient.IsFavoriteAsWritten | src/contexts/FavoritesContext.js:124-126 | as written, `some` scans from the front: it answers true exactly when an entry of the product comes before any absent entry, throws exactly when an absent entry comes before any match, and answers false exactly when every entry is present and of another product; over present entries it is plain membership |
| FavoritesClient.StaleAddBreaksLookup | src/contexts/FavoritesContext.js:69 | the product was saved from another session and is missing from this list. Adding it again is acknowledged and appends an absent entry, and the next lookup throws. |
| FavoritesClient.AlreadySavedAppendsAbsent | src/contexts/FavoritesContext.js:68-73 | as written, for any product already saved on the server, an add is acknowledged, writes nothing and appends an absent entry; if the earlier entries were present and of other products, the next lookup of that product throws |
| FavoritesClient.Session | src/contexts/FavoritesContext.js:31-48 | signed out, the list is empty; signed in, it is the server's listing |
| FavoritesClient.Add | src/contexts/FavoritesContext.js:50-87 | corrected: a signed-out caller is refused; success is exactly the server's success; a failure keeps the list; a success whose reply carries the new favourite appends it, and one whose reply carries none (already saved) reloads the list from the server instead of appending; the server table is exactly the handler's |
| FavoritesClient.Remove | src/contexts/FavoritesContext.js:89-122 | a signed-out caller is refused; success is exactly the server's success and drops every entry of the product; a failure keeps the list |
| FavoritesClient.SessionMirrors | src/contexts/FavoritesContext.js:31-48 | after a session change, the list holds exactly the rows the server lists |
| FavoritesClient.AddKeepsMirror | src/contexts/FavoritesContext.js:50-87 | corrected: with the corrected add, which reloads the list when the reply carries no favourite, a list in step with the server stays in step after an add, and a successful add leaves the product a favourite. The add as written does not keep this (see Findings) |
| FavoritesClient.RemoveKeepsMirror | src/contexts/FavoritesContext.js:89-122 | a list in step with the server stays in step after a remove, and a successful remove leaves the product no favourite |
| FavoritesClient.IsFavorite | src/contexts/FavoritesContext.js:124-126 | `favorites.some(fav => fav.productId === productId)` over a list of present entries |
| FavoritesClient.Toggle | src/contexts/FavoritesContext.js:128-134 | corrected: a favourite is removed and any other product is added with the corrected add, which reloads the list when the reply carries no favourite; `FavoritesClient.ToggleFlips` states the effect |
| FavoritesClient.ToggleFlips | src/contexts/FavoritesContext.js:128-134 | corrected: with the corrected add, which reloads the list when the reply carries no favourite, a successful toggle on a list in step with the server flips whether the product is a favourite |
| Utils.GenerateSlug | src/lib/utils.js:22-29 | lower-case, drop every character but [a-z0-9], the space and the hyphen, turn each run of spaces into one hyphen, squeeze hyphen runs, then trim; the lemmas below state the result's shape |
| Utils.GenerateSlugShape | src/lib/utils.js:22-29 | `generateSlug` uses only [a-z0-9-] and never holds two adjacent hyphens |
| Utils.SlugStagesIdentity | src/lib/utils.js:22-29 | a string already of that shape is its own slug |
| Utils.GenerateSlugIdempotent | src/lib/utils.js:22-29 | applying `generateSlug` to a slug changes nothing |
| Utils.GenerateSlugKeepsEdgeHyphen | src/lib/utils.js:22-29 | a name with a leading space gets a slug with a leading hyphen, because `trim` runs after the hyphen substitution |
| Utils.CalculateDiscount | src/lib/utils.js:32-35 | 0 when the sale price is absent, 0 or not lower; otherwise the percentage off, rounded to the nearest integer, within 0 to 100 |
| Utils.DiscountBounds | src/lib/utils.js:34 | the rounded percentage is the nearest integer to 100·(o − s)/o and lies in 0 to 100 |
| Utils.IsValidPhoneAsWritten | src/lib/utils.js:44-47 | `/^[+]?[91]?[0-9]{10}$/` on the phone with white space removed, as written |
| Utils.IsValidPhone | src/lib/utils.js:44-47 | the corrected pattern: ten digits, alone or after "91" or "+91", once white space is removed |
| Utils.PhoneAsWrittenRejectsCountryCode | src/lib/utils.js:44-47 | as written, a ten-digit number after "+91" is refused, while the intended pattern accepts it |
| Utils.PhoneAsWrittenLength | src/lib/utils.js:44-47 | as written, an accepted phone has 10 to 12 characters once white space is removed |
| Utils.PhoneAcceptsCountryCodeForms | src/lib/utils.js:44-47 | the corrected check accepts a ten-digit number on its own, after "91" and after "+91" |
| Utils.TruncateText | src/lib/utils.js:83-86 | a text within the limit is returned unchanged; a longer one shrinks to at most the limit plus the three-dot ellipsis |
| Utils.TruncatedShape | src/lib/utils.js:83-86 | a truncated text is the trimmed first `maxLength` characters (none for a negative limit) followed by "...", with no white space at the edges of the kept part |
| Utils.Split | src/lib/utils.js:99 | `split(' ')` gives at least one piece and no piece holds a space |
| Utils.JoinSplit | src/lib/utils.js:99 | joining the pieces back with single spaces gives the original name |
| Utils.GetInitials | src/lib/utils.js:97-103 | the initials are the upper-cased first letters of the name's first two non-empty space-separated words, in order; fewer when it has fewer such words |
| Utils.FirstLettersOfNonEmptyWords | src/lib/utils.js:99-101 | the joined initials hold one letter per non-empty word, in order, so empty words from doubled or edge spaces add nothing |
| Utils.FirstLettersFromWords | src/lib/utils.js:100 | every initial is the upper-cased first letter of some non-empty word of the name |
| Utils.GetInitialsTwoWords | src/lib/utils.js:97-103 | a two-word name gets the upper-cased first letter of each word |
| Utils.DigitsAreTheFilter | src/lib/utils.js:107 | `replace(/\D/g, '')` keeps exactly the digits of its input, each as often as it occurs, in their order, and nothing else |
| Utils.FormatPhone | src/lib/utils.js:106-112 | a phone whose digits number other than ten is returned unchanged; otherwise the result is 15 characters shaped as "+91 ddddd ddddd" |
| Utils.FormatPhoneKeepsDigits | src/lib/utils.js:106-112 | the formatted number holds the original ten digits, in order, after the country code |
| Utils.FormatPhoneIdempotent | src/lib/utils.js:106-112 | formatting an already formatted number changes nothing |
| Catalogue.RouteSlug | src/app/api/admin/products/route.js:99 | lower-case, each run of characters outside [a-z0-9] to one hyphen, then one edge hyphen dropped at each end; the lemmas below state its shape and fixed points |
| Catalogue.StripEdgeHyphens | src/app/api/admin/products/route.js:99 | `replace(/(^-\|-$)/g, '')` drops one leading and one trailing hyphen, and nothing else |
| Catalogue.RouteSlugShape | src/app/api/admin/products/route.js:99 | the admin routes' slug uses only [a-z0-9-], has no two adjacent hyphens and no hyphen at either end |
| Catalogue.RouteSlugFixedPoints | src/app/api/admin/products/route.js:99 | a string is its own route slug exactly when it already has that shape |
| Catalogue.RouteSlugIdempotent | src/app/api/admin/products/route.js:99 | deriving the route slug of a route slug changes nothing |
| Catalogue.RouteSlugDropsEdgeHyphen | src/app/api/admin/products/route.js:99 | for a name with a leading space, the route slug has no edge hyphen, while `generateSlug` keeps one |
| Catalogue.ProductOrdering | src/app/api/products/route.js:41-43 | `orderBy: { [sortBy]: sortOrder }` is accepted exactly for a known sortable field and 'asc' or 'desc'; the default is newest first |
| Catalogue.ProductOrderingIsPreorder | src/app/api/products/route.js:41-43 | every accepted ordering is total and transitive |
| Catalogue.ListProducts | src/app/api/products/route.js:4-64 | an unknown sort field or direction fails with 500 'Failed to fetch products'; otherwise the result is the selected rows, ordered and paged |
| Catalogue.ListingIsConsistent | src/app/api/products/route.js:29-48 | the page holds at most `limit` products, each from the table and selected, in the requested order; `total` counts every selected product |
| Catalogue.FilteredListing | src/app/api/categories/route.js:13-27 | a filtered, ordered, paged listing holds at most `limit` rows, each from the table and kept by the filter, in order; its count is the size of the filter |
| AdminProducts.CreateProductAsAdmin | src/app/api/admin/products/route.js:60-165 | checks run in order: required fields (400), SKU taken (400), slug taken (400). A `categoryId` with no category row then makes the create fail with 500 'Failed to create product'. A row is written exactly when none of these applies. It is appended with a fresh id, the route slug of the name, and the stored defaults. |
| AdminProducts.GetProducts | src/app/api/admin/products/route.js:167 | anyone but an admin gets 401 or 403; an admin gets the listing over all products with a default limit of 10 |
| AdminProducts.CreateProduct | src/app/api/admin/products/route.js:168 | anyone but an admin gets 401 or 403 with nothing written; an admin gets the create handler's outcome |
| AdminProducts.RejectedCreateWritesNothing | src/app/api/admin/products/route.js:88-126 | every refused create, whatever the reason, leaves the table as it was |
| AdminProducts.ClientSlugIgnored | src/app/api/admin/products/route.js:68-99 | the slug is derived from the name alone, so the client's slug field never changes the outcome |
| AdminProducts.CreateKeepsKeysUnique | src/app/api/admin/products/route.js:102-126 | creation keeps ids, SKUs and slugs each unique, and the new slug has the route slug's shape |
| AdminProducts.DefaultAdminListing | src/app/api/admin/products/route.js:8-13 | without parameters an admin sees the first ten of all products, newest first, with every product counted |
| AdminProducts.DefaultListProducts | src/app/api/admin/products/route.js:5-50 | the unfiltered admin listing with default parameters is page 1 of 10, newest first, counting every product |
| AdminProducts.UnfilteredAdminSelection | src/app/api/admin/products/route.js:18-27 | with no search and no category the admin `where` clause keeps every product, active or not |
| AdminCategories.CreateCategoryAsAdmin | src/app/api/admin/categories/route.js:59-135 | 400 when the name is missing, 400 when the slug is taken; a row is written exactly when neither applies. It has a fresh id, the client's slug as sent or else the route slug of the name, and `isActive` defaulting to true. |
| AdminCategories.ListCategories | src/app/api/admin/categories/route.js:5-56 | page and limit default to 1 and 10 when falsy; a page or limit below 1 fails with 500 'Failed to fetch categories'; `total` counts every category matching the search; the page is the `limit` matches from `(page - 1) * limit` on, newest first |
| AdminCategories.GetCategories | src/app/api/admin/categories/route.js:137 | anyone but an admin gets 401 or 403; an admin gets the category listing |
| AdminCategories.CreateCategory | src/app/api/admin/categories/route.js:138 | anyone but an admin gets 401 or 403 with nothing written; an admin gets the create handler's outcome |
| AdminCategories.ListingIsConsistent | src/app/api/admin/categories/route.js:5-49 | the page holds at most `limit` categories matching the search, newest first; `total` counts every match |
| AdminCategories.CreateKeepsSlugsUnique | src/app/api/admin/categories/route.js:90-101 | the duplicate check keeps category ids and slugs unique |
| AdminCategories.ClientSlugNotNormalised | src/app/api/admin/categories/route.js:87 | a client slug is stored as sent, so a category slug can hold capitals and spaces |
| ProductsApi.GetProducts | src/app/api/products/route.js:4-64 | any failure is 500 'Failed to fetch products', and it happens exactly for an unknown sort field or direction or a page or limit below 1; page and limit default to 1 and 12; `total` counts every active product matching the search and category, and `totalPages` follows from it; the page is the `limit` matches from `(page - 1) * limit` on, in the requested order |
| ProductsApi.OnlyActiveListed | src/app/api/products/route.js:16-27 | the public listing shows and counts only active products matching the search and category, at most `limit` of them |
| ProductsApi.DefaultListing | src/app/api/products/route.js:7-12 | without parameters the listing is the first twelve active products, newest first |
| ProductsApi.FalsyParametersFallBack | src/app/api/products/route.js:7-8 | a page or limit of 0 or one that does not parse falls back to 1 and 12 |
| CategoriesApi.GetCategories | src/app/api/categories/route.js:4-42 | any failure is 500 'Failed to fetch categories', exactly when page or limit is below 1; they default to 1 and 50; `total` counts every active category; the page is the `limit` active categories from `(page - 1) * limit` on, in name order |
| CategoriesApi.OnlyActiveInNameOrder | src/app/api/categories/route.js:12-27 | the public listing shows and counts only active categories, in name order, at most `limit` per page |
| Register.RegisterUser | src/components/app/api/auth/register/route.js:8-89 | 400 when email, password or name is missing; 409 when the email is taken; otherwise the account is stored as a USER with the hashed password, a 100-point welcome entry is written, and the token is signed from the id, email and role; the cookie lives 604800 seconds |
| Register.RejectedRegistrationWritesNothing | src/components/app/api/auth/register/route.js:12-29 | a refused registration writes neither a user nor a ledger entry |
| Register.RegistrationKeepsEmailsUnique | src/components/app/api/auth/register/route.js:19-43 | registration keeps ids and emails unique, and the new account is found by its email |
| Register.SecondRegistrationRefused | src/components/app/api/auth/register/route.js:19-29 | a second registration with the same email is refused with 409, so the welcome bonus is written once |
| Newsletter.LooseEmail | src/app/api/newsletter/route.js:8 | `/\S+@\S+\.\S+/` without anchors: somewhere a non-space character, '@', a run of non-space characters, '.', and a non-space character follow each other |
| Newsletter.Subscribe | src/app/api/newsletter/route.js:4-49 | 400 unless the email matches the loose pattern; 409 when it is already subscribed; otherwise exactly one active row with a fresh id is appended and the reply carries its id and email |
| Newsletter.SubscribeKeepsEmailsUnique | src/app/api/newsletter/route.js:15-33 | subscribing keeps one row per email, and subscribing the same address again is refused |
| Newsletter.CheckoutEmailsPass | src/app/api/newsletter/route.js:8 | every email the checkout form accepts also passes this route's check |
| Newsletter.UnanchoredAcceptsSpaces | src/app/api/newsletter/route.js:8 | the unanchored pattern accepts 'a b@c.in', which the checkout form refuses |
| HeroSlides.GetSlides | src/app/api/admin/hero-slides/route.js:4-23 | anyone but a signed-in admin gets 401 'Unauthorized', never 403; an admin gets a permutation of all the slides |
| HeroSlides.SlidesInOrder | src/app/api/admin/hero-slides/route.js:12-14 | the slides come in ascending `order` |
| HeroSlides.CreateSlide | src/app/api/admin/hero-slides/route.js:25-72 | 401 for non-admins; 400 when title, image, CTA text or CTA link is missing; otherwise one row is appended with a fresh id, null for empty subtitle and description, `isActive` defaulting to true and `order` to 0 |
| HeroSlides.DefaultsOnlyForAbsentFlag | src/app/api/admin/hero-slides/route.js:53-54 | an explicit `isActive: false` is stored as false and only an absent one becomes true; `order` becomes 0 whenever it is falsy |

## Left out

- Every database call is a pure read or write of an in-memory sequence. Concurrency, transactions and connection failures are not modelled, and neither is the 500 reply they would produce. The orders handler's writes are not atomic in the source; the model applies them all together.
- Floating point: prices, weights and totals are whole rupees. `parseFloat` and `parseInt` of strings are not modelled; request numbers arrive already parsed, with `None` for absent or NaN.
- Utils.CalculateDiscount rounds the exact ratio half up, rather than the floating-point value `Math.round` sees.
- Pricing.Tax rounds the exact 18%, rather than the floating-point product `Math.round` sees.
- JWT signing and verification and bcrypt hashing and comparison are function parameters, so their cryptography is not modelled. The token's expiry is not modelled either.
- `generateToken`, `hashPassword` and `comparePassword` are one-line wrappers over those libraries, and are left out with them.
- The `formatCurrency`, `formatCurrencyDetailed`, `formatDate` and `formatDateTime` helpers depend on `Intl` locale formatting, and are left out.
- `formatWeight` depends on `toFixed` over floating point, and is left out.
- `generateOrderNumber` depends on the clock and `Math.random`, and is left out. So is the order-number field it fills.
- `getAvatarColor` selects a CSS class name and has no logic beyond indexing, and is left out.
- `isValidEmail` is the same pattern as the checkout form's email check, which is modelled as `Checkout.ValidEmail`.
- Console logging carries no logic, and is left out.
- The checkout page's Google Pay handler (`handleGooglePay`, src/app/checkout/page.js:163-297) is left out: no button on the page calls it. Only the server's acceptance of a 'googlepay' body is modelled.
- Toasts, loading flags, routing and rendering of the pages are user interface, and are left out.
- Only the `GET` and `POST` handlers are modelled. The order listing (`GET` in src/app/api/orders/route.js:192-234) is outside the modelled core.
- The authenticated branches of the client cart container only forward to the cart API, which is modelled as `CartApi`; their network calls are not modelled.
- The initial loads (`loadGuestCart`, `fetchFavorites`) are network reads. They are modelled as their outcome (`Session`, or the catalogue `Option` parameter of `GuestCart.AddToCart`).
- GuestCart.AddToCart: the guest catalogue is whatever product list the fetch returned. The source's fetch returns only the listing's first page.
- The `include` and `select` of related rows are not modelled. This covers the category of a product, a category's `_count` and the product of a cart row.
- The product columns `material`, `dimensions`, `metaTitle` and `metaDescription` are stored without any logic, and are left out of the records.
- Paging.Paginate answers 500 whenever the resolved page or limit is below 1, and the model deliberately differs from the source here. The source hands a negative `skip` or `take` to the database client, whose semantics are not part of this model. A negative `take` counts from the end of the rows, so `?limit=-5` (page 1, skip 0) answers 200 in the source with the last five rows and `totalPages` of `Math.ceil(total / -5)`, and so does page -1 with limit -5 (skip 10). Only a negative `skip`, such as page -1 with a positive limit, is refused by the database and answered with 500 as modelled.
- `getFavoritesCount` (src/contexts/FavoritesContext.js:136-138) is the list's `length` and has no logic of its own, and is left out.
- A non-numeric `categoryId` parameter is treated as absent. In the source, `parseInt` would give NaN and the database client would refuse the query.
- Utils.TruncateText counts characters as Unicode code points. JavaScript's `length` and `substring` count UTF-16 code units, so a text with characters outside the Basic Multilingual Plane is measured and cut differently. For example, `truncateText("😀😀", 2)` cuts after the first emoji in JavaScript but is returned unchanged here.
- Utils.TruncatedShape inherits the same code-point counting: the kept part is the first `maxLength` code points, where JavaScript keeps the first `maxLength` UTF-16 code units and can split a surrogate pair.
- Utils.GetInitials takes each word's first code point. JavaScript's `charAt(0)` and `substring(0, 2)` take UTF-16 code units, so an initial outside the Basic Multilingual Plane would be half a surrogate pair there.
- Orders.ParsePaymentMethod assumes the payment-method enum has exactly the values COD, UPI and GOOGLEPAY. The database schema is not part of this model. The handler upper-cases the method, and the pages send 'cod', 'upi' and 'googlepay'.
- AdminProducts.CreateProductAsAdmin assumes the category relation is a required foreign key, as the create's `include: { category: true }` implies. The database schema is not part of this model.
- Catalogue.ProductOrdering sorts only on id, price, stockQuantity, createdAt, name, slug and sku. Any other field, including the nullable columns, fails with 500.
- Catalogue.ProductOrdering: the database's tie order and collation are not modelled. Ties keep table order (a stable sort) and strings compare by code point.
- Text.Lower and Text.Upper map ASCII letters only. The case-insensitive search compares ASCII case-folded text.
- `isActive` values that are not booleans are not modelled.

## Findings

| source | as written | input that shows it | evidently intended | confidence | as-written member | corrected member |
|---|---|---|---|---|---|---|
| src/lib/utils.js:45 | `/^[+]?[91]?[0-9]{10}$/` makes `[91]` one optional character, either '9' or '1' | "+91" followed by ten digits, e.g. "+919876543210", is refused | `(\+?91)?` before the ten digits: a number with or without the +91 country code is accepted | not executed | Utils.PhoneAsWrittenRejectsCountryCode | Utils.PhoneAcceptsCountryCodeForms |
| src/contexts/FavoritesContext.js:69 | every OK reply appends `data.favorite` to the list | a product saved in another session is added again. The server answers 200 'Product already in favorites' with no `favorite`, so `undefined` is appended and the next `isFavorite` reads `fav.productId` of it and throws. | a reply without a favourite leaves the list as the server holds it | not executed | FavoritesClient.StaleAddBreaksLookup | FavoritesClient.AddKeepsMirror |

# BLVD SAINT storefront: session-state model

This project models the session state of the storefront's single React
component `App` (`src/app.tsx`). The state has five parts:

- the current page: shop, product or cart;
- the cart, a list of whole product snapshots;
- the catalog of products;
- the selected product id, which may be null;
- the index of the image shown on the product page.

Every event handler is modelled as one atomic transition:

- `addToCart` refuses an unavailable product. Otherwise it appends a snapshot,
  reserves the catalog entry (stock 0, out of stock) and shows the cart.
- `removeFromCart` filters out every cart entry with the id. It then releases
  the catalog entry (stock 1, in stock).
- `toggleStock` flips availability, with stock following it (1 or 0).
- The "View", "Back" and thumbnail buttons move between pages and images.

Prices are whole pence (25.99 GBP is 2599), so the cart total is exact.

Files:

- `catalog.dfy` (module `Catalog`): the `Product` record and the per-entry
  updates. It has the per-id catalog rewrite (`MapWhere`, standing for `map`),
  the lookup (`Find`, standing for `find`) and the seed catalog.
- `cart.dfy` (module `ShoppingCart`): the filter, the total, and the
  reservation invariant that ties the cart to the catalog.
- `storefront.dfy` (module `Storefront`): class `App`. Its fields are the
  session state and its methods are the handlers.
- `scenarios.dfy` (module `Scenarios`): concrete sessions over the seed catalog.

Three invariants are kept apart:

- `App.Valid()` is kept by every handler. It says that every catalog entry
  satisfies `inStock <==> stock >= 1` and has stock 0 or 1. Catalog ids are
  unique and every entry has at least one image. The product page is shown
  only for a listed product. The image index is a valid index into the
  selected product's images.
- `App.Reserving()` is `ShoppingCart.Reservations`. It says that every cart
  entry's id is listed and reserved in the catalog, and that no id is in the
  cart twice. The `addToCart` handler (of a listed product) and the
  `removeFromCart` handler keep it. Called directly, the `toggleStock`
  handler can break it: toggling a product in the cart puts it back in
  stock, and a second add then puts the same id in the cart twice
  (`Scenarios.ToggleDivergence`).
- `App.Reachable()` holds in every session the buttons can produce. The
  cart is empty unless the cart page is shown, the cart holds at most one
  entry, and `Reserving()` holds. Every method keeps it when invoked from the
  page that shows its button. The toggle button is on the product page,
  where the cart is empty. So the divergence above exists only at the level
  of the handlers, and no click sequence reaches it.

The program differs from a general storefront design in these ways, and the
model follows the program:

- Cart entries carry no size or quantity. The total is the plain sum of
  prices, not price times quantity.
- `removeFromCart` releases the catalog entry even when the cart held no
  entry with that id. The release is idempotent, so a second remove changes
  nothing (`ShoppingCart.RemoveTwice`).
- No button leads to the cart page except a successful add. No button leads
  away from it.
- The image index is reset only when the selected id changes: the effect
  depends on `selectedProductId`. Viewing the same product again keeps the
  index (`Scenarios.ImageIndexSession`).

## Model

| member | source | states |
|---|---|---|
| Catalog.Reserve | src/app.tsx:65 | the reserved record keeps its listing, has stock 0, is out of stock and satisfies the stock invariant |
| Catalog.Release | src/app.tsx:77 | the released record keeps its listing, has stock 1, is available and satisfies the stock invariant |
| Catalog.Toggle | src/app.tsx:86 | the toggled record keeps its listing, has the opposite `inStock`, gets stock 0 if it was in stock and 1 otherwise, and so satisfies the stock invariant whatever it was before |
| Catalog.MapWhere | src/app.tsx:64-66 | the rewrite keeps length and order, rewrites every entry with the id and leaves every other entry equal |
| Catalog.ReserveId | src/app.tsx:63-67 | after a successful add every entry with the id has stock 0 and is out of stock; all other entries, the length, order and listings are unchanged; the stock invariant is preserved |
| Catalog.ReleaseId | src/app.tsx:75-79 | after a remove every entry with the id has stock 1 and is in stock; all other entries, the length, order and listings are unchanged; the stock invariant is preserved |
| Catalog.ToggleId | src/app.tsx:82-90 | each entry with the id flips `inStock`, gets stock 0 if it was in stock and 1 otherwise, and is consistent afterwards; all other entries are untouched |
| Catalog.Find | src/app.tsx:52 | the lookup is None exactly when no entry has the id; otherwise it is an entry with the id and no earlier entry has the id |
| Catalog.Selected | src/app.tsx:52 | a null selected id yields null; a found product has the selected id and is in the catalog; a listed id is always found |
| Catalog.FindListed | src/app.tsx:52 | with unique ids, looking up a listed product's id yields that same product |
| Catalog.FindSameListing | src/app.tsx:52 | the selected product is found after any availability update exactly when it was found before, and with the same listing |
| Catalog.ReleaseUndoesReserve | src/app.tsx:63-79 | releasing after reserving restores every entry that had stock 1 and was in stock |
| Catalog.ReleaseIdempotent | src/app.tsx:75-79 | releasing the same id twice writes the same catalog as releasing it once |
| Catalog.ToggleTwice | src/app.tsx:82-90 | toggling twice restores every entry whose stock is 1 when in stock and 0 otherwise |
| Catalog.InitialProducts | src/app.tsx:15-43 | the seed catalog has three entries with unique ids and at least one image each; each is available with stock 1 |
| ShoppingCart.RemoveId | src/app.tsx:73 | the filtered cart is no longer than the cart, and holds exactly the cart's entries whose id differs |
| ShoppingCart.RemoveIdCounts | src/app.tsx:73 | the filter keeps each entry whose id differs as often as it occurs and drops every entry with the id |
| ShoppingCart.RemoveIdAppend | src/app.tsx:73 | the filter preserves order: it distributes over concatenation |
| ShoppingCart.RemoveIdAbsent | src/app.tsx:73 | removing an id that no entry carries leaves the cart unchanged |
| ShoppingCart.RemoveIdKeepsUnique | src/app.tsx:73 | the filter of a cart without repeated ids has no repeated ids |
| ShoppingCart.RemoveOnlyEntry | src/app.tsx:73 | removing the only entry with an id takes out exactly that position, keeping the rest in order |
| ShoppingCart.Total | src/app.tsx:92 | the total of an empty cart is 0, and the total of a cart with non-negative prices is non-negative |
| ShoppingCart.TotalAppend | src/app.tsx:92 | the total of a concatenation is the sum of the two totals |
| ShoppingCart.RemoveOnlyEntryTotal | src/app.tsx:72-92 | removing the only entry with an id lowers the total by that entry's price |
| ShoppingCart.AddKeepsReservations | src/app.tsx:58-70 | adding an available listed product to a reserving cart keeps the invariant; the product's id was not already in the cart |
| ShoppingCart.RemoveKeepsReservations | src/app.tsx:72-80 | removing an id keeps the reservation invariant and leaves no entry with that id |
| ShoppingCart.AddThenRemoveRestores | src/app.tsx:58-80 | adding an in-stock product with stock 1 and then removing it restores both cart and catalog exactly |
| ShoppingCart.RemoveTwice | src/app.tsx:72-80 | a second remove with the same id changes neither cart nor catalog |
| Storefront.SessionAddThenRemove | src/app.tsx:58-80 | in a valid session, adding any available listed product and then removing it restores both cart and catalog, because its stock is 1 |
| Storefront.SessionToggleTwice | src/app.tsx:82-90 | in a valid session, toggling the same id twice restores the catalog |
| Storefront.App.constructor | src/app.tsx:46-50 | the session starts on the shop page, with an empty cart, the seed catalog, no selection and image 0; all three invariants hold |
| Storefront.App.AddToCart | src/app.tsx:58-70 | an unavailable product changes nothing. Otherwise the cart becomes the old cart plus the product, the catalog is `ReserveId` of the old one, the page is the cart and the total grows by the price. Selection is unchanged. The reservation invariant is kept, and so is `Reachable()` when the handler is invoked off the cart page, as the add button is |
| Storefront.App.RemoveFromCart | src/app.tsx:72-80 | the cart becomes the filtered cart and the catalog `ReleaseId` of the old one; no entry with the id remains; page and selection are unchanged; the reservation invariant and `Reachable()` are kept, and the total drops by the removed entry's price |
| Storefront.App.ToggleStock | src/app.tsx:82-90 | the catalog becomes `ToggleId` of the old one and nothing else changes; the stock invariant is kept, and `Reachable()` is kept when invoked from the product page, where the button is |
| Storefront.App.ViewProduct | src/app.tsx:110-113 | the product page shows the chosen product. The image index becomes 0 when the selected id changes and is kept otherwise (the effect at src/app.tsx:54-56); `Reachable()` is kept when invoked from the shop page, where the button is |
| Storefront.App.Back | src/app.tsx:124 | only the page changes, to the shop; `Reachable()` is kept when invoked from the product page |
| Storefront.App.SelectImage | src/app.tsx:137 | only the image index changes, to a valid index of the selected product's images; `Reachable()` is kept |
| Storefront.App.AddSelectedToCart | src/app.tsx:151-156 | the live record of the selected product is added when available, reserving it and showing the cart; otherwise cart, catalog and page are unchanged; the selection and image index never change; the reservation invariant and `Reachable()` are kept |
| Scenarios.SeedTotal | src/app.tsx:92 | Angel Tee and the hoodie total 8598 pence |
| Scenarios.ToggleDivergence | src/app.tsx:82-90 | at the level of the handlers, toggling the reserved Duck Tee breaks the reservation invariant and a second add would put id 3 in the cart twice; no click sequence reaches this |
| Scenarios.DivergenceSession | src/app.tsx:58-90 | calling the add and toggle handlers directly on the Duck Tee leaves the catalog record available while the cart still holds its snapshot; the toggle runs on the cart page, which shows no toggle button |
| Scenarios.ImageIndexSession | src/app.tsx:54-56 | image index 1 survives leaving and re-viewing the same product; viewing another product resets it to 0 |
| Scenarios.BlockedAddSession | src/app.tsx:59 | viewing the Angel Tee, toggling it out of stock and pressing "Add to Cart" is refused: the cart stays empty, the product page stays shown and the catalog is unchanged |

## Left out

- Rendering, inline styles and image path resolution (src/app.tsx:94-187). Rendering decides which buttons are shown on which page (src/app.tsx:98, 122, 164). The model's handlers are not gated by page: only `AddSelectedToCart` requires the product page. So the model admits sessions the program's buttons cannot produce, such as a toggle while the cart page is shown. `App.Reachable()` and the page conditions in the methods' ensures state what holds for the sessions the buttons can produce.
- `formatGBP` (src/app.tsx:3): it formats floating-point numbers with `toFixed`. Money is whole pence here, and no string formatting is modelled.
- The checkout `alert` (src/app.tsx:181): an external side effect with no state change.
- React's `useState`/`useEffect` scheduling and batching: each handler is one atomic step. The effect is folded into `ViewProduct`, the only writer of the selected id.
- The disabled-button guards (src/app.tsx:109, 152): they are not preconditions in the model. So the model also allows viewing or adding an out-of-stock product, and every invariant is proved for that larger set of behaviours.
- Floating-point prices: the program adds JavaScript numbers, whose sums are not guaranteed exact (0.1 + 0.2 !== 0.3). The model's total is exact in pence.

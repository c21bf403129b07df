# Catalog loader and shopping cart, modelled in Dafny

This project models the two Angular components of a product-catalog front
end that hold its logic.

- **`ProductListComponent`** keeps a window of products. The window grows
  through `GET /products?limit=N` requests. Such a request returns the
  *first* N products of the catalog, not the next page, so consecutive
  responses overlap. Each response is merged by product id. A short response
  marks the catalog as exhausted. A loading flag keeps requests from
  overlapping. A scroll near the bottom of the page widens `limit` by
  `pagination` (10) and loads. The visible list is the window when the search
  term is empty. Otherwise it is every product of the full catalog whose
  lower-cased title contains the lower-cased term. A confirmed delete drops the
  product from the window. Whether the user may delete or create products
  depends on an e-mail pattern and on the user's city and country.
- **`ProductCartComponent`** keeps a cart of lines. A line is a flat copy of a
  product's fields plus a quantity, keyed by product id. The cart supports
  add, remove, increase, decrease and clear, and after each change it
  recomputes `totalItems`. It also lists the catalog's categories and filters
  the catalog by category.

Files:

- `entities.dfy`: `Option`, `Product` and `User`.
- `seqs.dfy`: the array operations the components use (`filter`, a sum, the
  distinct elements a `Set` yields), with their lemmas.
- `text.dfy`: lower-casing and substring containment.
- `product_list.dfy`: the merge, the visible list, the role and permission
  predicates, and the class `ProductList`. Each asynchronous continuation of
  the component is a method of that class: the initial catalog response,
  the paged response, the paged error and the delete response. Each takes the
  gateway's answer as an argument.
- `product_cart.dfy`: the cart functions and their lemmas, and the class
  `ProductCart`. Its `Valid()` says that `totalItems` is the sum of the
  quantities, that no id has two lines, and that every quantity is at least 1.
- `scenarios.dfy`: three clients that drive the classes through event
  sequences:
  - a 25-product catalog paged by scrolling;
  - a search that matches nothing and keeps re-requesting;
  - a product added twice and then decreased twice.

The recursive call in `loadProducts` does not widen `limit`. It re-invokes the
load when the visible list is empty and the catalog is not exhausted. With an
empty term that never happens after a response (`EmptySearchNeverBackfills`).
With a term that matches no title in the full catalog, every full-size
response issues the same request again, and the repeated response changes
nothing (`UnmatchedSearchNeverSettles`). The model states this behaviour as it
is and does not claim that loading terminates.

Points where the code is easy to misread; the model follows it as written:

- the backfill re-requests the same `limit`; it does not widen it;
- `initialLoad` fills the window with the first `pagination` products, not the
  whole catalog;
- `increaseQuantity` and `decreaseQuantity` index the cart unchecked, so the
  model requires a valid index;
- adding then removing a product restores the cart only when the cart had no
  line for it (`AddThenRemove`);
- cart lines are flat copies `{...product, quantity}`, not pairs.

## Model

| member | source | states |
|---|---|---|
| ProductListing.ProductList.constructor | src/app/components/product-list/product-list.component.ts:37-45 | the initial state: empty window and catalog, `limit` 10, `pagination` 10, not loading, not exhausted, empty term, no menu, no user or role |
| ProductListing.ProductList.Init | src/app/components/product-list/product-list.component.ts:65-71 | `ngOnInit` stores the session user and sets the role "admin" exactly when that user's e-mail is in the admin pattern |
| ProductListing.ProductList.OnInitialLoad | src/app/components/product-list/product-list.component.ts:82-85 | the full catalog becomes the search base and only its first `pagination` products the window |
| ProductListing.ProductList.LoadProducts | src/app/components/product-list/product-list.component.ts:97-101 | a request is issued iff neither loading nor exhausted; then loading is set; otherwise nothing changes |
| ProductListing.ProductList.OnLoadResult | src/app/components/product-list/product-list.component.ts:102-123 | the window becomes old window + the response's products with unseen ids, in arrival order; ids stay distinct when window and response have distinct ids; exhausted iff it was or the response is shorter than `limit`; `limit` unchanged; a new request is issued iff the visible list is empty and the catalog is not exhausted, and loading is set exactly then |
| ProductListing.ProductList.OnLoadError | src/app/components/product-list/product-list.component.ts:125-128 | an error only clears loading; window and exhaustion are untouched |
| ProductListing.ProductList.OnScroll | src/app/components/product-list/product-list.component.ts:204-209 | fires iff `innerHeight + scrollY >= offsetHeight - 1000`, not loading and not exhausted; when it fires `limit` grows by exactly `pagination` and a request is issued; otherwise nothing changes |
| ProductListing.ProductList.OnDeleteResult | src/app/components/product-list/product-list.component.ts:183-191 | a truthy response drops the products with the selected id from the window; a falsy one leaves it; the menu closes either way |
| ProductListing.ProductList.ToggleMenu | src/app/components/product-list/product-list.component.ts:151-153 | the menu of `index` is shown, or hidden if it was the one shown |
| ProductListing.ToggledTwice | src/app/components/product-list/product-list.component.ts:151-153 | toggling a row twice restores the menu iff none or that row's menu was shown; toggling another row shows that row's menu |
| ProductListing.ProductList.CloseMenu | src/app/components/product-list/product-list.component.ts:156-158 | no menu is shown |
| ProductListing.MergedDistinct | src/app/components/product-list/product-list.component.ts:105-110 | the merge keeps ids distinct when the window and the response each have distinct ids |
| ProductListing.MergedCoversResponse | src/app/components/product-list/product-list.component.ts:105-110 | after a merge every product of the response is in the window by id |
| ProductListing.MergedIdempotent | src/app/components/product-list/product-list.component.ts:105-110 | merging the same response again adds nothing |
| ProductListing.DistinctIdsSplit | src/app/components/product-list/product-list.component.ts:105-107 | in a response with distinct ids, no product of an earlier part shares an id with a later part |
| ProductListing.NewProductsAfterEarlierPart | src/app/components/product-list/product-list.component.ts:105-110 | what the later part of a response adds does not depend on whether the earlier part was merged first |
| ProductListing.MergedOverPrefix | src/app/components/product-list/product-list.component.ts:105-110 | for a response `a + b` with distinct ids, merging it over the merge of `a` gives the merge of `a + b` |
| ProductListing.MergedOverlappingPages | src/app/components/product-list/product-list.component.ts:101-110 | merging a first-n response and then a first-N response (n <= N) of the same catalog gives the same window as merging the first-N response alone |
| ProductListing.MergedIntoEmpty | src/app/components/product-list/product-list.component.ts:105-110 | merging into an empty window yields the response itself |
| ProductListing.ProductList.GetFilteredProducts | src/app/components/product-list/product-list.component.ts:141-148 | with an empty term the visible list is the loaded window exactly; otherwise a product is visible iff it is in the full catalog and its lower-cased title contains the lower-cased term |
| ProductListing.Filtered | src/app/components/product-list/product-list.component.ts:141-148 | with an empty term the visible list is the window exactly; otherwise a product is visible iff it is in the full catalog and its lower-cased title contains the lower-cased term, and the list is no longer than the catalog |
| ProductListing.FilteredKeepsOrder | src/app/components/product-list/product-list.component.ts:145-147 | with a term, the visible list is the catalog's matches in catalog order: it distributes over concatenation, and one product is shown once if it matches and not at all otherwise |
| ProductListing.SearchIgnoresCase | src/app/components/product-list/product-list.component.ts:145-147 | every term and its lower-cased form show the same products |
| ProductListing.EmptySearchNeverBackfills | src/app/components/product-list/product-list.component.ts:103-122 | with an empty term and a positive limit, after a response the window is non-empty or the catalog is exhausted, so the load is not re-invoked |
| ProductListing.UnmatchedSearchNeverSettles | src/app/components/product-list/product-list.component.ts:114-122 | with a term no catalog title matches, the visible list is empty over any merged window, and merging the same response again leaves the window unchanged; together with `OnLoadResult` a full-size response re-invokes the load forever |
| ProductListing.WithoutIdSpec | src/app/components/product-list/product-list.component.ts:186 | the delete keeps exactly the products whose id differs, in order; it keeps ids distinct; it is the identity when the id is absent |
| ProductListing.WithoutIdRemovesOne | src/app/components/product-list/product-list.component.ts:186 | in a window with distinct ids, deleting a present id removes exactly one product |
| ProductListing.AdminEmailMatchesPattern | src/app/components/product-list/product-list.component.ts:70 | the scan accepts exactly the strings of `^[a-zA-Z0-9._%+-]+@sdi\.es$`: one or more allowed characters followed by `@sdi.es` |
| ProductListing.RoleFor | src/app/components/product-list/product-list.component.ts:70 | the role is "admin" or "user", and "admin" iff a user is signed in whose e-mail is in the admin pattern |
| ProductListing.ProductList.AdminCanDelete | src/app/components/product-list/product-list.component.ts:161-163 | true iff the role is "admin" and the user is in Madrid, España; then the user may not create |
| ProductListing.ProductList.AdminCanCreate | src/app/components/product-list/product-list.component.ts:166-168 | true iff the role is "admin" and the user is in Logroño, España; then the user may not delete |
| ProductListing.PermissionsSpec | src/app/components/product-list/product-list.component.ts:161-168 | nobody may both delete and create; either permission needs an admin e-mail |
| ProductCart.ProductCart.constructor | src/app/components/product-cart/product-cart.component.ts:21-26 | the initial state is valid: empty catalog, cart and facets, `totalItems` 0, no category |
| ProductCart.ProductCart.OnCatalogLoaded | src/app/components/product-cart/product-cart.component.ts:43-49 | the catalog becomes both the product list and the filtered list, and the facets are its distinct categories |
| ProductCart.CategoriesSpec | src/app/components/product-cart/product-cart.component.ts:48 | each category of the catalog is listed exactly once, nothing else is listed, in order of first occurrence |
| ProductCart.ByCategory | src/app/components/product-cart/product-cart.component.ts:64-70 | with a non-empty category, a product is shown iff it is in the catalog with that category, and the result is no longer than the catalog; with none or an empty one, the whole catalog |
| ProductCart.ByCategoryKeepsOrder | src/app/components/product-cart/product-cart.component.ts:64-67 | with a category, the shown products are that category's products in catalog order: the filter distributes over concatenation, and one product is shown once if it is in the category and not at all otherwise |
| ProductCart.ProductCart.FilterByCategory | src/app/components/product-cart/product-cart.component.ts:61-71 | records the selected category and shows the catalog filtered by it |
| ProductCart.FacetsAreNonEmpty | src/app/components/product-cart/product-cart.component.ts:48-70 | choosing any listed category shows at least one product |
| ProductCart.FindLine | src/app/components/product-cart/product-cart.component.ts:86 | the result is the first line with the id, or none iff no line has it |
| ProductCart.AddedSpec | src/app/components/product-cart/product-cart.component.ts:86-92 | with a line for the id only that line gains one item and the length is unchanged; otherwise a line with quantity 1 is appended; the invariant is kept; the item count rises by 1 and the price by the line's price |
| ProductCart.ProductCart.AddToCart | src/app/components/product-cart/product-cart.component.ts:85-95 | the cart becomes the added cart, stays valid, and `totalItems` rises by 1 |
| ProductCart.RemovedSpec | src/app/components/product-cart/product-cart.component.ts:99 | exactly the lines without the id remain, in order; no-op iff no line has the id |
| ProductCart.RemovedKeepsWellFormed | src/app/components/product-cart/product-cart.component.ts:99 | removal keeps one line per id and positive quantities |
| ProductCart.RemovedLine | src/app/components/product-cart/product-cart.component.ts:99-100 | in a valid cart removing a line's id removes that position only, and its items and price leave the totals |
| ProductCart.AddThenRemove | src/app/components/product-cart/product-cart.component.ts:86-99 | removing after adding equals removing alone, and restores the cart iff the cart had no line for the product |
| ProductCart.ProductCart.RemoveFromCart | src/app/components/product-cart/product-cart.component.ts:98-101 | the cart loses every line with the id, stays valid, `totalItems` is the new sum |
| ProductCart.WithQuantitySpec | src/app/components/product-cart/product-cart.component.ts:105-112 | setting one line's quantity to a positive value keeps the invariant and moves item count and price by the difference |
| ProductCart.ProductCart.IncreaseQuantity | src/app/components/product-cart/product-cart.component.ts:104-107 | only line `index` gains one item; `totalItems` rises by 1 |
| ProductCart.DecreasedSpec | src/app/components/product-cart/product-cart.component.ts:111-116 | decreasing keeps the invariant and takes exactly one item and one unit price out; a line of one item is removed |
| ProductCart.ProductCart.DecreaseQuantity | src/app/components/product-cart/product-cart.component.ts:110-117 | the cart becomes the decreased cart, stays valid, `totalItems` falls by 1 |
| ProductCart.TotalPriceSpec | src/app/components/product-cart/product-cart.component.ts:119-124 | the price is the `reduce` of price times quantity in integer cents, with no rounding (see "Left out"): appending a line adds its price times quantity, and non-negative prices and quantities give a non-negative total |
| ProductCart.ProductCart.UpdateTotalItems | src/app/components/product-cart/product-cart.component.ts:127-129 | `totalItems` is the sum of the quantities |
| ProductCart.ProductCart.ClearCart | src/app/components/product-cart/product-cart.component.ts:132-135 | the cart is empty, `totalItems` is 0, and the state is valid |

## Left out

- The HTTP gateway is left out. Every response enters as an argument of a continuation method, and the order in which events arrive is the caller's choice.
- `takeUntil(destroy$)` teardown and `ngOnDestroy` are left out: the model has no teardown event.
- `getTotalPrice` is not modelled as written: it uses floating-point `price * quantity` and `toFixed(2)` rounding. `TotalPrice` sums integer cents without rounding.
- `toLowerCase` is modelled on ASCII letters only; Unicode case mapping is not captured.
- Scroll geometry is three integer arguments; the browser's fractional offsets are not captured.
- Quantities, `limit` and ids are unbounded integers; JavaScript number precision is not captured.
- The PrimeNG confirmation dialog, the toasts and the `console.error` logging of a failed product load are left out. The `accept` callback is the direct call `OnDeleteResult`.
- A failed delete request is left out. The service rethrows the error, the subscription has no error handler, and so nothing in the component changes.
- `searchTerm` is written by the template's two-way binding. In the model it is a field that clients assign.
- `createProduct` (router navigation), the create-product form, login, authentication, the route guard and the menu component are left out as UI plumbing. The menu and the guard use the same e-mail pattern that `AdminEmailMatchesPattern` covers.
- The product interface file is not part of this model. `Product` carries the fields the components read: id, title, price, category and image.
- ProductCart.ProductCart.RemoveFromCart: takes the id, because the source reads only the `id` of whatever object it receives.
- ProductCart.ByCategory: JavaScript's falsy `null`, `undefined` and `""` are modelled as `None` and `Some("")`.

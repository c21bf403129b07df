/** Clients that drive the two components through event sequences and check,
    from the components' contracts alone, what the user sees. */
module Scenarios {
  import opened Entities
  import opened Seqs
  import opened ProductListing
  import opened ProductCart

  /** A catalog of 25 products with distinct ids. The window starts with the
      first 10; each scroll near the bottom widens the limit by 10 and the
      gateway answers with the first `limit` products. The second page adds
      10 products, the third adds the last 5 and, being short, exhausts the
      catalog; after that a scroll issues nothing. */
  method ScrollPagination(catalog: seq<Product>)
    requires |catalog| == 25 && DistinctIds(catalog)
  {
    var list := new ProductList();
    list.OnInitialLoad(catalog);
    assert list.products == catalog[..10];

    var fetch := list.OnScroll(800, 2000, 3000);
    assert fetch && list.limit == 20 && list.isLoading;
    var page := catalog[..20];
    assert DistinctIds(page) by {
      forall i, j | 0 <= i < j < |page| ensures IdsDiffer(page[i], page[j]) {
        assert page[i] == catalog[i] && page[j] == catalog[j];
      }
    }
    assert page[..10] == catalog[..10];
    MergedOverlappingPages([], page, 10);
    MergedIntoEmpty(page[..10]);
    MergedIntoEmpty(page);
    var refetch := list.OnLoadResult(page);
    assert list.products == page;
    assert !refetch && !list.allProductsLoaded && !list.isLoading;

    fetch := list.OnScroll(800, 4000, 5000);
    assert fetch && list.limit == 30;
    assert catalog[..20] == page;
    MergedOverlappingPages([], catalog, 20);
    MergedIntoEmpty(catalog);
    refetch := list.OnLoadResult(catalog);
    assert list.products == catalog && |list.products| == 25;
    assert list.allProductsLoaded && !refetch;

    fetch := list.OnScroll(800, 6000, 6000);
    assert !fetch && list.limit == 30;
  }

  /** From any state with no request outstanding and the catalog not
      exhausted, while a term that no title of the full catalog matches is
      typed, a full-size response is followed by a new request for the same
      limit, and the same response leaves the component where it was: the
      requests never stop. */
  method UnmatchedSearchLoop(list: ProductList, page: seq<Product>)
    requires list.searchTerm != "" && !list.isLoading && !list.allProductsLoaded
    requires |page| >= list.limit
    requires forall p :: p in list.allProducts ==> !Text.Includes(Text.Lower(p.title), Text.Lower(list.searchTerm))
    modifies list
  {
    var limit := list.limit;
    var fetch := list.LoadProducts();
    assert fetch;
    UnmatchedSearchNeverSettles(list.searchTerm, list.products, list.allProducts, page);
    var refetch := list.OnLoadResult(page);
    assert refetch && list.isLoading && list.limit == limit && !list.allProductsLoaded;
    var window := list.products;
    refetch := list.OnLoadResult(page);
    assert refetch && list.products == window && list.isLoading && list.limit == limit && !list.allProductsLoaded;
  }

  /** Adding a product twice gives one line of two items; decreasing it twice
      empties the cart. */
  method CartRoundTrip(p: Product)
  {
    var shop := new ProductCart();
    shop.AddToCart(p);
    assert shop.cart == [LineFor(p, 1)];
    shop.AddToCart(p);
    assert shop.cart == [LineFor(p, 2)] && shop.totalItems == 2;
    assert shop.cart[1..] == [] && LinePrice(shop.cart[0]) == 2 * p.price;
    assert TotalPrice(shop.cart) == LinePrice(shop.cart[0]) + TotalPrice(shop.cart[1..]);
    assert TotalPrice(shop.cart) == 2 * p.price;
    shop.DecreaseQuantity(0);
    assert shop.cart == [LineFor(p, 1)] && shop.totalItems == 1;
    shop.DecreaseQuantity(0);
    assert shop.cart == [] && shop.totalItems == 0;
  }
}

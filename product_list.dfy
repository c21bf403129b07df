/** The catalog view (`ProductListComponent`): a window of products grown by
    `?limit=N` requests that return the first N products of the catalog,
    merged by id; a title search over the full catalog; deletion; the action
    menu; and the admin permissions derived from the session user. */
module ProductListing {
  import opened Entities
  import opened Seqs
  import opened Text

  /** Distance, in pixels, from the bottom of the page within which a scroll
      asks for more products. */
  const ScrollThreshold := 1000

  /** The e-mail domain that makes a user an administrator. */
  const AdminDomain := "@sdi.es"

  // ----- Merging a response into the loaded window -----

  /** Some product of `s` carries `id`. */
  predicate HasId(s: seq<Product>, id: int) {
    exists i :: 0 <= i < |s| && s[i].id == id
  }

  /** The merge's filter test: no product of `loaded` has this product's id. */
  function NotLoadedIn(loaded: seq<Product>): Product -> bool {
    (p: Product) => !HasId(loaded, p.id)
  }

  /** The products of a response whose id is not loaded yet, in arrival order.
      Repeats inside the response itself are kept. */
  function NewProducts(loaded: seq<Product>, res: seq<Product>): seq<Product> {
    Filter(NotLoadedIn(loaded), res)
  }

  /** The loaded window after a response: the old window, untouched, then the
      new products. */
  function Merged(loaded: seq<Product>, res: seq<Product>): seq<Product> {
    loaded + NewProducts(loaded, res)
  }

  predicate IdsDiffer(a: Product, b: Product) {
    a.id != b.id
  }

  /** No two products share an id. */
  ghost predicate DistinctIds(s: seq<Product>) {
    Pairwise(s, IdsDiffer)
  }

  /** Merging keeps ids distinct, provided the response has no repeats of its own. */
  lemma MergedDistinct(loaded: seq<Product>, res: seq<Product>)
    requires DistinctIds(loaded) && DistinctIds(res)
    ensures DistinctIds(Merged(loaded, res))
  {
    var n := NewProducts(loaded, res);
    FilterPairwise(NotLoadedIn(loaded), res, IdsDiffer);
    var m := loaded + n;
    forall i, j | 0 <= i < j < |m| ensures IdsDiffer(m[i], m[j]) {
      if j < |loaded| {
        assert m[i] == loaded[i] && m[j] == loaded[j];
      } else if i >= |loaded| {
        assert m[i] == n[i - |loaded|] && m[j] == n[j - |loaded|];
      } else {
        assert m[j] == n[j - |loaded|] && m[j] in n;
        assert m[i] == loaded[i];
      }
    }
  }

  /** After a merge every product of the response is represented, by id, in
      the window. */
  lemma MergedCoversResponse(loaded: seq<Product>, res: seq<Product>)
    ensures forall p :: p in res ==> HasId(Merged(loaded, res), p.id)
  {
    var n := NewProducts(loaded, res);
    var m := Merged(loaded, res);
    forall p | p in res ensures HasId(m, p.id) {
      if HasId(loaded, p.id) {
        var i :| 0 <= i < |loaded| && loaded[i].id == p.id;
        assert m[i] == loaded[i];
      } else {
        assert p in n;
        var k :| 0 <= k < |n| && n[k] == p;
        assert m[|loaded| + k] == p;
      }
    }
  }

  /** Merging the same response twice adds nothing the second time. */
  lemma MergedIdempotent(loaded: seq<Product>, res: seq<Product>)
    ensures NewProducts(Merged(loaded, res), res) == []
    ensures Merged(Merged(loaded, res), res) == Merged(loaded, res)
  {
    MergedCoversResponse(loaded, res);
    FilterKeepsNone(NotLoadedIn(Merged(loaded, res)), res);
  }

  /** In a response with distinct ids, no product of an earlier part shares
      its id with one of a later part. */
  lemma DistinctIdsSplit(a: seq<Product>, b: seq<Product>)
    requires DistinctIds(a + b)
    ensures forall x, y :: x in a && y in b ==> x.id != y.id
  {
    forall x, y | x in a && y in b ensures x.id != y.id {
      var k :| 0 <= k < |a| && a[k] == x;
      var j :| 0 <= j < |b| && b[j] == y;
      assert (a + b)[k] == x && (a + b)[|a| + j] == y;
    }
  }

  /** For a response `a + b` with distinct ids, what `b` adds after `a` has
      been merged is what it adds to the window before that merge. */
  lemma NewProductsAfterEarlierPart(loaded: seq<Product>, a: seq<Product>, b: seq<Product>)
    requires DistinctIds(a + b)
    ensures NewProducts(Merged(loaded, a), b) == NewProducts(loaded, b)
  {
    var m1 := Merged(loaded, a);
    var n := NewProducts(loaded, a);
    DistinctIdsSplit(a, b);
    forall x | x in b ensures NotLoadedIn(m1)(x) == NotLoadedIn(loaded)(x) {
      if HasId(loaded, x.id) {
        var i :| 0 <= i < |loaded| && loaded[i].id == x.id;
        assert m1[i] == loaded[i];
      } else {
        forall i | 0 <= i < |m1| ensures m1[i].id != x.id {
          if i >= |loaded| {
            assert m1[i] == n[i - |loaded|] && m1[i] in n;
          }
        }
      }
    }
    FilterCongruent(NotLoadedIn(m1), NotLoadedIn(loaded), b);
  }

  /** For a response `a + b` with distinct ids, merging it over a window that
      already holds the merge of `a` gives the merge of `a + b`. */
  lemma MergedOverPrefix(loaded: seq<Product>, a: seq<Product>, b: seq<Product>)
    requires DistinctIds(a + b)
    ensures Merged(Merged(loaded, a), a + b) == Merged(loaded, a + b)
  {
    var m1 := Merged(loaded, a);
    var na, nb := NewProducts(loaded, a), NewProducts(loaded, b);
    calc {
      Merged(m1, a + b);
    ==
      m1 + NewProducts(m1, a + b);
    == { FilterConcat(NotLoadedIn(m1), a, b); }
      m1 + (NewProducts(m1, a) + NewProducts(m1, b));
    == { MergedIdempotent(loaded, a); NewProductsAfterEarlierPart(loaded, a, b); }
      (loaded + na) + ([] + nb);
    == { assert [] + nb == nb; }
      loaded + (na + nb);
    == { FilterConcat(NotLoadedIn(loaded), a, b); }
      Merged(loaded, a + b);
    }
  }

  /** A first-N page merged over an earlier first-n page (n <= N) of the same
      catalog gives what the first-N page alone would have given: the
      overlap of non-cursor pages is absorbed without duplicates or gaps. */
  lemma MergedOverlappingPages(loaded: seq<Product>, res: seq<Product>, n: nat)
    requires DistinctIds(res) && n <= |res|
    ensures Merged(Merged(loaded, res[..n]), res) == Merged(loaded, res)
  {
    assert res == res[..n] + res[n..];
    MergedOverPrefix(loaded, res[..n], res[n..]);
  }

  /** Merging into an empty window yields the response. */
  lemma MergedIntoEmpty(res: seq<Product>)
    ensures Merged([], res) == res
  {
    FilterKeepsAll(NotLoadedIn([]), res);
  }

  // ----- The visible list -----

  /** The search test: the lower-cased title contains the lower-cased term. */
  function TitleMatches(term: string): Product -> bool {
    (p: Product) => Includes(Lower(p.title), Lower(term))
  }

  /** The visible products (`getFilteredProducts`): the loaded window when
      the term is empty, otherwise the matches in the full catalog. */
  function Filtered(term: string, loaded: seq<Product>, all: seq<Product>): (r: seq<Product>)
    ensures term == "" ==> r == loaded
    ensures term != "" ==> |r| <= |all|
    ensures term != "" ==> forall p :: p in r <==> p in all && Includes(Lower(p.title), Lower(term))
  {
    if term == "" then loaded else Filter(TitleMatches(term), all)
  }

  /** With a term, the visible list is the order-preserving subsequence of the
      catalog's matches: it distributes over concatenation, and a single
      product is shown once or not at all. */
  lemma FilteredKeepsOrder(term: string, loaded: seq<Product>, a: seq<Product>, b: seq<Product>, p: Product)
    requires term != ""
    ensures Filtered(term, loaded, a + b) == Filtered(term, loaded, a) + Filtered(term, loaded, b)
    ensures Filtered(term, loaded, [p]) == if Includes(Lower(p.title), Lower(term)) then [p] else []
  {
    FilterConcat(TitleMatches(term), a, b);
    assert [p][1..] == [];
  }

  /** The search ignores the case of the term: the term and its lower-cased
      form show the same products. */
  lemma SearchIgnoresCase(term: string, loaded: seq<Product>, all: seq<Product>)
    ensures Filtered(Lower(term), loaded, all) == Filtered(term, loaded, all)
  {
    LowerIdempotent(term);
    FilterCongruent(TitleMatches(Lower(term)), TitleMatches(term), all);
  }

  /** With an empty term and a positive limit a success never re-invokes the
      load: a full-size response leaves the window non-empty, and a short one
      marks the catalog exhausted. */
  lemma EmptySearchNeverBackfills(loaded: seq<Product>, all: seq<Product>, res: seq<Product>, limit: int)
    requires limit > 0
    ensures Filtered("", Merged(loaded, res), all) != [] || |res| < limit
  {
    if |res| >= limit && loaded == [] {
      MergedIntoEmpty(res);
    }
  }

  /** With a term that no title of the full catalog matches, the visible list
      is empty whatever the window holds, and the same response arriving
      again leaves the window as it was: after a full-size response the
      backfill repeats the identical request for ever. */
  lemma UnmatchedSearchNeverSettles(term: string, loaded: seq<Product>, all: seq<Product>, res: seq<Product>)
    requires term != ""
    requires forall p :: p in all ==> !Includes(Lower(p.title), Lower(term))
    ensures Filtered(term, Merged(loaded, res), all) == []
    ensures Merged(Merged(loaded, res), res) == Merged(loaded, res)
  {
    MergedIdempotent(loaded, res);
  }

  // ----- Deletion -----

  /** The deletion filter test: the product does not carry `id`. */
  function IdIsNot(id: int): Product -> bool {
    (p: Product) => p.id != id
  }

  /** The window after a confirmed delete of the product with `id`. */
  function WithoutId(s: seq<Product>, id: int): seq<Product> {
    Filter(IdIsNot(id), s)
  }

  /** A delete drops exactly the products with the id, keeps the others in
      order, leaves ids distinct, and changes nothing when the id is absent. */
  lemma WithoutIdSpec(s: seq<Product>, id: int)
    ensures forall p :: p in WithoutId(s, id) <==> p in s && p.id != id
    ensures forall a, b :: WithoutId(a + b, id) == WithoutId(a, id) + WithoutId(b, id)
    ensures DistinctIds(s) ==> DistinctIds(WithoutId(s, id))
    ensures !HasId(s, id) ==> WithoutId(s, id) == s
  {
    forall a, b {
      FilterConcat(IdIsNot(id), a, b);
    }
    if DistinctIds(s) {
      FilterPairwise(IdIsNot(id), s, IdsDiffer);
    }
    if !HasId(s, id) {
      FilterKeepsAll(IdIsNot(id), s);
    }
  }

  /** In a window with distinct ids, deleting a present id removes exactly one
      product. */
  lemma WithoutIdRemovesOne(s: seq<Product>, id: int)
    requires DistinctIds(s) && HasId(s, id)
    ensures |WithoutId(s, id)| == |s| - 1
  {
    var k :| 0 <= k < |s| && s[k].id == id;
    forall i | 0 <= i < |s| && i != k ensures IdIsNot(id)(s[i]) {
      if i < k {
        assert IdsDiffer(s[i], s[k]);
      } else {
        assert IdsDiffer(s[k], s[i]);
      }
    }
    FilterDropsOne(IdIsNot(id), s, k);
  }

  // ----- The action menu -----

  /** The shown menu after `toggleMenu(index)`. */
  function Toggled(shown: Option<int>, index: int): Option<int> {
    if shown == Some(index) then None else Some(index)
  }

  /** Toggling the same row twice restores the menu exactly when no menu or
      that row's menu was shown; toggling another row shows that row's. */
  lemma ToggledTwice(shown: Option<int>, i: int, j: int)
    ensures Toggled(Toggled(shown, i), i) == shown <==> shown == None || shown == Some(i)
    ensures i != j ==> Toggled(Toggled(shown, i), j) == Some(j)
  {
  }

  // ----- Role and permissions -----

  /** The characters `[a-zA-Z0-9._%+-]` allowed before the domain. */
  predicate IsLocalChar(c: char) {
    'a' <= c <= 'z' || 'A' <= c <= 'Z' || '0' <= c <= '9'
    || c == '.' || c == '_' || c == '%' || c == '+' || c == '-'
  }

  /** The test `/^[a-zA-Z0-9._%+-]+@sdi\.es$/.test(email)`, written as a scan. */
  predicate IsAdminEmail(email: string) {
    var n := |email| - |AdminDomain|;
    n > 0 && email[n..] == AdminDomain && forall i :: 0 <= i < n ==> IsLocalChar(email[i])
  }

  /** The language of the pattern: one or more allowed characters, then the domain. */
  ghost predicate InAdminPattern(email: string) {
    exists local: string :: email == local + AdminDomain && |local| > 0
      && forall i :: 0 <= i < |local| ==> IsLocalChar(local[i])
  }

  lemma AdminEmailMatchesPattern(email: string)
    ensures IsAdminEmail(email) <==> InAdminPattern(email)
  {
    var n := |email| - |AdminDomain|;
    if IsAdminEmail(email) {
      var local := email[..n];
      assert email == local + AdminDomain;
    }
    if InAdminPattern(email) {
      var local: string :| email == local + AdminDomain && |local| > 0
        && forall i :: 0 <= i < |local| ==> IsLocalChar(local[i]);
      assert |local| == n && email[n..] == AdminDomain;
      forall i | 0 <= i < n ensures IsLocalChar(email[i]) {
        assert email[i] == local[i];
      }
    }
  }

  /** The role given in `ngOnInit`: "admin" exactly for a signed-in user whose
      e-mail is in the admin pattern, "user" otherwise. */
  function RoleFor(user: Option<User>): (role: string)
    ensures role == "admin" || role == "user"
    ensures role == "admin" <==> user.Some? && InAdminPattern(user.value.email)
  {
    if user.Some? then
      AdminEmailMatchesPattern(user.value.email);
      if IsAdminEmail(user.value.email) then "admin" else "user"
    else "user"
  }

  /** `adminCanDelete`: an admin located in Madrid, Spain. */
  predicate CanDelete(role: Option<string>, user: Option<User>) {
    role == Some("admin") && user.Some? && user.value.city == "Madrid" && user.value.country == "España"
  }

  /** `adminCanCreate`: an admin located in Logroño, Spain. */
  predicate CanCreate(role: Option<string>, user: Option<User>) {
    role == Some("admin") && user.Some? && user.value.city == "Logroño" && user.value.country == "España"
  }

  /** No user may both delete and create, and with the role derived from the
      session user either permission needs an admin e-mail. */
  lemma PermissionsSpec(user: Option<User>)
    ensures !(CanDelete(Some(RoleFor(user)), user) && CanCreate(Some(RoleFor(user)), user))
    ensures CanDelete(Some(RoleFor(user)), user) || CanCreate(Some(RoleFor(user)), user)
      ==> user.Some? && InAdminPattern(user.value.email)
  {
  }

  /** The component's state. The gateway's responses arrive as arguments of
      the continuation methods `OnInitialLoad`, `OnLoadResult`,
      `OnLoadError` and `OnDeleteResult`. */
  class ProductList {
    var products: seq<Product>
    var allProducts: seq<Product>
    var limit: int
    const pagination: int := 10
    var isLoading: bool
    var allProductsLoaded: bool
    var role: Option<string>
    var searchTerm: string
    var menuVisibleIndex: Option<int>
    var actualUser: Option<User>

    constructor ()
      ensures products == [] && allProducts == [] && limit == 10 && pagination == 10
      ensures !isLoading && !allProductsLoaded && searchTerm == ""
      ensures role == None && menuVisibleIndex == None && actualUser == None
    {
      products, allProducts := [], [];
      limit := 10;
      isLoading, allProductsLoaded := false, false;
      role, searchTerm := None, "";
      menuVisibleIndex, actualUser := None, None;
    }

    /** `ngOnInit`: the full-catalog request goes out (its response arrives in
        `OnInitialLoad`) and the role is derived from the session user. */
    method Init(currentUser: Option<User>)
      modifies this`actualUser, this`role
      ensures actualUser == currentUser
      ensures role == Some(RoleFor(currentUser))
    {
      actualUser := currentUser;
      role := Some(RoleFor(actualUser));
    }

    /** The response of the full-catalog request: the whole catalog becomes the
        search base and its first `pagination` products the window. */
    method OnInitialLoad(res: seq<Product>)
      modifies this`allProducts, this`products
      ensures allProducts == res
      ensures products == res[..if |res| < pagination then |res| else pagination]
    {
      allProducts := res;
      products := res[..if |res| < pagination then |res| else pagination];
    }

    /** The visible list. */
    function GetFilteredProducts(): (r: seq<Product>)
      reads this
      ensures searchTerm == "" ==> r == products
      ensures searchTerm != "" ==> forall p :: p in r <==> p in allProducts && Includes(Lower(p.title), Lower(searchTerm))
    {
      Filtered(searchTerm, products, allProducts)
    }

    /** The synchronous part of `loadProducts`: unless a request is
        outstanding or the catalog is exhausted, mark loading and issue the
        request for the first `limit` products (`fetch`). */
    method LoadProducts() returns (fetch: bool)
      modifies this`isLoading
      ensures fetch <==> !old(isLoading) && !allProductsLoaded
      ensures fetch ==> isLoading
      ensures !fetch ==> isLoading == old(isLoading)
    {
      if isLoading || allProductsLoaded {
        return false;
      }
      isLoading := true;
      fetch := true;
    }

    /** The success continuation of `loadProducts`: merge the response,
        mark exhaustion on a short page, clear loading, and re-invoke the load
        with the same `limit` when nothing is visible and the catalog is not
        exhausted (`refetch` tells whether that issued a new request). */
    method OnLoadResult(res: seq<Product>) returns (refetch: bool)
      modifies this`products, this`allProductsLoaded, this`isLoading
      ensures products == Merged(old(products), res)
      ensures DistinctIds(old(products)) && DistinctIds(res) ==> DistinctIds(products)
      ensures allProductsLoaded == (old(allProductsLoaded) || |res| < limit)
      ensures refetch <==> GetFilteredProducts() == [] && !allProductsLoaded
      ensures isLoading == refetch
    {
      if |res| > 0 {
        products := products + NewProducts(products, res);
      }
      if |res| < limit {
        allProductsLoaded := true;
      }
      isLoading := false;
      if |GetFilteredProducts()| == 0 && !allProductsLoaded {
        refetch := LoadProducts();
      } else {
        refetch := false;
      }
      if DistinctIds(old(products)) && DistinctIds(res) {
        MergedDistinct(old(products), res);
      }
    }

    /** The error continuation of `loadProducts`. */
    method OnLoadError()
      modifies this`isLoading
      ensures !isLoading
    {
      isLoading := false;
    }

    /** The scroll listener, with the window and page geometry as arguments:
        near the bottom, and with no request outstanding and the catalog not
        exhausted, widen `limit` by `pagination` and load. */
    method OnScroll(innerHeight: int, scrollY: int, offsetHeight: int) returns (fetch: bool)
      modifies this`limit, this`isLoading
      ensures fetch <==> innerHeight + scrollY >= offsetHeight - ScrollThreshold
                         && !old(isLoading) && !allProductsLoaded
      ensures limit == if fetch then old(limit) + pagination else old(limit)
      ensures isLoading == (old(isLoading) || fetch)
    {
      if innerHeight + scrollY >= offsetHeight - ScrollThreshold && !isLoading && !allProductsLoaded {
        limit := limit + pagination;
        fetch := LoadProducts();
      } else {
        fetch := false;
      }
    }

    /** The response to the delete request sent on confirmation: a truthy
        response drops the product's id from the window; either way the menu
        closes. */
    method OnDeleteResult(selected: Product, deleted: bool)
      modifies this`products, this`menuVisibleIndex
      ensures products == if deleted then WithoutId(old(products), selected.id) else old(products)
      ensures menuVisibleIndex == None
    {
      if deleted {
        products := WithoutId(products, selected.id);
      }
      CloseMenu();
    }

    /** Show the action menu of row `index`, or hide it if it is the one shown. */
    method ToggleMenu(index: int)
      modifies this`menuVisibleIndex
      ensures menuVisibleIndex == Toggled(old(menuVisibleIndex), index)
    {
      menuVisibleIndex := if menuVisibleIndex == Some(index) then None else Some(index);
    }

    method CloseMenu()
      modifies this`menuVisibleIndex
      ensures menuVisibleIndex == None
    {
      menuVisibleIndex := None;
    }

    /** `adminCanDelete`; an admin who may delete may not create. */
    function AdminCanDelete(): (r: bool)
      reads this
      ensures r <==> role == Some("admin") && actualUser.Some? && actualUser.value.city == "Madrid" && actualUser.value.country == "España"
      ensures r ==> !AdminCanCreate()
    {
      CanDelete(role, actualUser)
    }

    /** `adminCanCreate`; an admin who may create may not delete. */
    function AdminCanCreate(): (r: bool)
      reads this
      ensures r <==> role == Some("admin") && actualUser.Some? && actualUser.value.city == "Logroño" && actualUser.value.country == "España"
      ensures r ==> !CanDelete(role, actualUser)
    {
      CanCreate(role, actualUser)
    }
  }
}

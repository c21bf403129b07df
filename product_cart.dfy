/** The shopping-cart view (`ProductCartComponent`): the catalog with its
    category facets and category filter, and a cart of lines keyed by
    product id whose item count is kept in `totalItems`. */
module ProductCart {
  import opened Entities
  import opened Seqs

  // ----- Category facets and filter -----

  /** The category of every product, in catalog order. */
  function CategoryList(products: seq<Product>): seq<string> {
    seq(|products|, i requires 0 <= i < |products| => products[i].category)
  }

  /** The facets built on load: the categories of the catalog without
      repeats, in order of first occurrence. */
  function Categories(products: seq<Product>): seq<string> {
    Dedup(CategoryList(products))
  }

  /** Every category of the catalog is listed once, nothing else is listed,
      and the list follows the order in which categories first appear. */
  lemma CategoriesSpec(products: seq<Product>)
    ensures forall c :: c in Categories(products) <==>
      exists i :: 0 <= i < |products| && products[i].category == c
    ensures NoDuplicates(Categories(products))
    ensures forall i, j :: 0 <= i < j < |Categories(products)| ==>
      FirstIndex(CategoryList(products), Categories(products)[i])
        < FirstIndex(CategoryList(products), Categories(products)[j])
  {
    var cats := CategoryList(products);
    DedupFirstOccurrenceOrder(cats);
    forall c | c in cats ensures exists i :: 0 <= i < |products| && products[i].category == c {
      var i :| 0 <= i < |cats| && cats[i] == c;
      assert products[i].category == c;
    }
    forall c | exists i :: 0 <= i < |products| && products[i].category == c ensures c in cats {
      var i :| 0 <= i < |products| && products[i].category == c;
      assert cats[i] == c;
    }
  }

  /** The filter test of a selected category. */
  function InCategory(category: string): Product -> bool {
    (p: Product) => p.category == category
  }

  /** `filteredProducts` after a category is chosen: the products of that
      category, or every product when the choice is null or empty. */
  function ByCategory(products: seq<Product>, category: Option<string>): (r: seq<Product>)
    ensures category.Some? && category.value != "" ==>
      forall p :: p in r <==> p in products && p.category == category.value
    ensures |r| <= |products|
    ensures category.None? || category.value == "" ==> r == products
  {
    if category.Some? && category.value != "" then Filter(InCategory(category.value), products)
    else products
  }

  /** With a category chosen, the shown products are the order-preserving
      subsequence of the catalog in that category: the filter distributes
      over concatenation, and a single product is shown once or not at all. */
  lemma ByCategoryKeepsOrder(a: seq<Product>, b: seq<Product>, category: string, p: Product)
    requires category != ""
    ensures ByCategory(a + b, Some(category)) == ByCategory(a, Some(category)) + ByCategory(b, Some(category))
    ensures ByCategory([p], Some(category)) == if p.category == category then [p] else []
  {
    FilterConcat(InCategory(category), a, b);
    assert [p][1..] == [];
  }

  /** Choosing any listed facet shows at least one product. */
  lemma FacetsAreNonEmpty(products: seq<Product>, category: string)
    requires category in Categories(products)
    ensures ByCategory(products, Some(category)) != []
  {
    CategoriesSpec(products);
    var i :| 0 <= i < |products| && products[i].category == category;
    assert products[i] in ByCategory(products, Some(category));
  }

  // ----- Cart lines -----

  /** A line of the cart: a flat copy of the product's fields with a
      quantity added (`{...product, quantity}`). */
  datatype CartLine = CartLine(id: int, title: string, price: int, category: string, image: string, quantity: int)

  function LineFor(p: Product, quantity: int): CartLine {
    CartLine(p.id, p.title, p.price, p.category, p.image, quantity)
  }

  function Quantity(line: CartLine): int {
    line.quantity
  }

  /** What a line adds to the price, in cents. */
  function LinePrice(line: CartLine): int {
    line.price * line.quantity
  }

  /** The number of items in the cart (`updateTotalItems`). */
  function TotalQuantity(cart: seq<CartLine>): int {
    Sum(Quantity, cart)
  }

  /** The price of the cart in cents (`getTotalPrice` without its rounding). */
  function TotalPrice(cart: seq<CartLine>): int {
    Sum(LinePrice, cart)
  }

  /** The price is the left fold of `reduce`: appending a line adds its price
      times its quantity, and a cart of non-negative prices and quantities
      costs a non-negative amount. */
  lemma {:induction false} TotalPriceSpec(cart: seq<CartLine>, line: CartLine)
    ensures TotalPrice(cart + [line]) == TotalPrice(cart) + line.price * line.quantity
    ensures (forall i :: 0 <= i < |cart| ==> cart[i].price >= 0 && cart[i].quantity >= 0) ==> TotalPrice(cart) >= 0
  {
    SumConcat(LinePrice, cart, [line]);
    assert TotalPrice([line]) == LinePrice(line) + TotalPrice([]);
    if cart != [] {
      TotalPriceSpec(cart[1..], line);
      if forall i :: 0 <= i < |cart| ==> cart[i].price >= 0 && cart[i].quantity >= 0 {
        assert forall i :: 0 <= i < |cart[1..]| ==> cart[1..][i] == cart[i + 1];
        assert LinePrice(cart[0]) >= 0;
      }
    }
  }

  predicate LineIdsDiffer(a: CartLine, b: CartLine) {
    a.id != b.id
  }

  /** The cart's invariant: at most one line per product id, and every line
      holds at least one item. */
  ghost predicate WellFormed(cart: seq<CartLine>) {
    Pairwise(cart, LineIdsDiffer) && forall i :: 0 <= i < |cart| ==> cart[i].quantity >= 1
  }

  /** Some line carries `id`. */
  predicate HasLine(cart: seq<CartLine>, id: int) {
    exists i :: 0 <= i < |cart| && cart[i].id == id
  }

  /** `cart.find(item => item.id === id)`, as the position of the first line
      with that id. */
  function FindLine(cart: seq<CartLine>, id: int): (k: Option<nat>)
    ensures k.Some? ==>
      k.value < |cart| && cart[k.value].id == id && forall i :: 0 <= i < k.value ==> cart[i].id != id
    ensures k.None? <==> !HasLine(cart, id)
  {
    if cart == [] then None
    else if cart[0].id == id then Some(0)
    else
      match FindLine(cart[1..], id)
      case Some(k) => Some(k + 1)
      case None => None
  }

  /** The line at `k` with its quantity changed to `q`. */
  function WithQuantity(cart: seq<CartLine>, k: nat, q: int): seq<CartLine>
    requires k < |cart|
  {
    cart[k := cart[k].(quantity := q)]
  }

  /** The cart after `addToCart(p)`. */
  function Added(cart: seq<CartLine>, p: Product): seq<CartLine> {
    match FindLine(cart, p.id)
    case Some(k) => WithQuantity(cart, k, cart[k].quantity + 1)
    case None => cart + [LineFor(p, 1)]
  }

  function LineIdIsNot(id: int): CartLine -> bool {
    (line: CartLine) => line.id != id
  }

  /** The cart after `removeFromCart` of a product with `id`. */
  function Removed(cart: seq<CartLine>, id: int): seq<CartLine> {
    Filter(LineIdIsNot(id), cart)
  }

  /** The cart after `decreaseQuantity(k)`. */
  function Decreased(cart: seq<CartLine>, k: nat): seq<CartLine>
    requires k < |cart|
  {
    if cart[k].quantity > 1 then WithQuantity(cart, k, cart[k].quantity - 1)
    else Removed(cart, cart[k].id)
  }

  /** Changing one line's quantity to a positive one keeps the invariant and
      moves the item count by the difference. */
  lemma WithQuantitySpec(cart: seq<CartLine>, k: nat, q: int)
    requires WellFormed(cart) && k < |cart| && q >= 1
    ensures WellFormed(WithQuantity(cart, k, q))
    ensures TotalQuantity(WithQuantity(cart, k, q)) == TotalQuantity(cart) - cart[k].quantity + q
    ensures TotalPrice(WithQuantity(cart, k, q)) == TotalPrice(cart) + cart[k].price * (q - cart[k].quantity)
  {
    var c := WithQuantity(cart, k, q);
    assert forall i, j :: 0 <= i < j < |c| ==> LineIdsDiffer(c[i], c[j]) == LineIdsDiffer(cart[i], cart[j]);
    SumUpdate(Quantity, cart, k, cart[k].(quantity := q));
    SumUpdate(LinePrice, cart, k, cart[k].(quantity := q));
    assert LinePrice(cart[k].(quantity := q)) - LinePrice(cart[k]) == cart[k].price * (q - cart[k].quantity);
  }

  /** `addToCart(p)`: when a line with `p`'s id exists only its quantity goes
      up by one and the cart keeps its length; otherwise a line for `p` with
      quantity 1 is appended. The invariant is kept, the item count goes up
      by one and the price by the price held on the line. */
  lemma AddedSpec(cart: seq<CartLine>, p: Product)
    requires WellFormed(cart)
    ensures HasLine(cart, p.id) ==>
      |Added(cart, p)| == |cart|
      && forall i :: 0 <= i < |cart| ==>
        Added(cart, p)[i] == if cart[i].id == p.id then cart[i].(quantity := cart[i].quantity + 1) else cart[i]
    ensures !HasLine(cart, p.id) ==> Added(cart, p) == cart + [LineFor(p, 1)]
    ensures WellFormed(Added(cart, p))
    ensures TotalQuantity(Added(cart, p)) == TotalQuantity(cart) + 1
    ensures TotalPrice(Added(cart, p)) ==
      TotalPrice(cart) + match FindLine(cart, p.id) case Some(k) => cart[k].price case None => p.price
  {
    match FindLine(cart, p.id)
    case Some(k) =>
      WithQuantitySpec(cart, k, cart[k].quantity + 1);
      forall i | 0 <= i < |cart| && i != k ensures cart[i].id != p.id {
        if i < k {
          assert LineIdsDiffer(cart[i], cart[k]);
        } else {
          assert LineIdsDiffer(cart[k], cart[i]);
        }
      }
    case None =>
      var c := cart + [LineFor(p, 1)];
      forall i, j | 0 <= i < j < |c| ensures LineIdsDiffer(c[i], c[j]) {
        if j < |cart| {
          assert c[i] == cart[i] && c[j] == cart[j];
        }
      }
      SumConcat(Quantity, cart, [LineFor(p, 1)]);
      SumConcat(LinePrice, cart, [LineFor(p, 1)]);
  }

  /** `removeFromCart`: every line with the id goes, the others stay in order
      with their quantities, nothing changes when no line has the id, and the
      invariant is kept. */
  lemma RemovedSpec(cart: seq<CartLine>, id: int)
    ensures forall line :: line in Removed(cart, id) <==> line in cart && line.id != id
    ensures forall a, b :: Removed(a + b, id) == Removed(a, id) + Removed(b, id)
    ensures !HasLine(cart, id) ==> Removed(cart, id) == cart
    ensures HasLine(cart, id) ==> Removed(cart, id) != cart
  {
    forall a, b {
      FilterConcat(LineIdIsNot(id), a, b);
    }
    if !HasLine(cart, id) {
      FilterKeepsAll(LineIdIsNot(id), cart);
    } else {
      var i :| 0 <= i < |cart| && cart[i].id == id;
      assert cart[i] in cart && cart[i] !in Removed(cart, id);
    }
  }

  lemma RemovedKeepsWellFormed(cart: seq<CartLine>, id: int)
    requires WellFormed(cart)
    ensures WellFormed(Removed(cart, id))
  {
    var r := Removed(cart, id);
    FilterPairwise(LineIdIsNot(id), cart, LineIdsDiffer);
    forall i | 0 <= i < |r| ensures r[i].quantity >= 1 {
      assert r[i] in cart;
      var j :| 0 <= j < |cart| && cart[j] == r[i];
    }
  }

  /** In a well-formed cart removing the line at `k` by its id removes that
      position only, and its items and price leave the totals. */
  lemma RemovedLine(cart: seq<CartLine>, k: nat)
    requires WellFormed(cart) && k < |cart|
    ensures Removed(cart, cart[k].id) == cart[..k] + cart[k + 1..]
    ensures TotalQuantity(Removed(cart, cart[k].id)) == TotalQuantity(cart) - cart[k].quantity
    ensures TotalPrice(Removed(cart, cart[k].id)) == TotalPrice(cart) - LinePrice(cart[k])
  {
    forall i | 0 <= i < |cart| && i != k ensures LineIdIsNot(cart[k].id)(cart[i]) {
      if i < k {
        assert LineIdsDiffer(cart[i], cart[k]);
      } else {
        assert LineIdsDiffer(cart[k], cart[i]);
      }
    }
    FilterDropsOne(LineIdIsNot(cart[k].id), cart, k);
    SumRemoveAt(Quantity, cart, k);
    SumRemoveAt(LinePrice, cart, k);
  }

  /** Adding a product and then removing it restores the cart exactly when
      the cart had no line for it; otherwise the removal drops the whole
      line, items added before included. */
  lemma AddThenRemove(cart: seq<CartLine>, p: Product)
    ensures Removed(Added(cart, p), p.id) == Removed(cart, p.id)
    ensures Removed(Added(cart, p), p.id) == cart <==> !HasLine(cart, p.id)
  {
    RemovedSpec(cart, p.id);
    match FindLine(cart, p.id)
    case Some(k) =>
      FilterUpdateDropped(LineIdIsNot(p.id), cart, k, cart[k].(quantity := cart[k].quantity + 1));
    case None =>
      FilterConcat(LineIdIsNot(p.id), cart, [LineFor(p, 1)]);
  }

  /** `decreaseQuantity(k)` keeps the invariant and takes exactly one item
      out; a line holding one item is removed. */
  lemma DecreasedSpec(cart: seq<CartLine>, k: nat)
    requires WellFormed(cart) && k < |cart|
    ensures WellFormed(Decreased(cart, k))
    ensures TotalQuantity(Decreased(cart, k)) == TotalQuantity(cart) - 1
    ensures TotalPrice(Decreased(cart, k)) == TotalPrice(cart) - cart[k].price
    ensures cart[k].quantity == 1 ==> Decreased(cart, k) == cart[..k] + cart[k + 1..]
  {
    if cart[k].quantity > 1 {
      WithQuantitySpec(cart, k, cart[k].quantity - 1);
    } else {
      RemovedLine(cart, k);
      RemovedKeepsWellFormed(cart, cart[k].id);
    }
  }

  /** The component's state. The catalog arrives as the argument of
      `OnCatalogLoaded`, the continuation of the request made on init. */
  class ProductCart {
    var products: seq<Product>
    var totalItems: int
    var cart: seq<CartLine>
    var filteredProducts: seq<Product>
    var categories: seq<string>
    var selectedCategory: Option<string>

    /** `totalItems` is the number of items in the cart, and the cart is
        well formed. */
    ghost predicate Valid()
      reads this
    {
      totalItems == TotalQuantity(cart) && WellFormed(cart)
    }

    constructor ()
      ensures Valid()
      ensures products == [] && cart == [] && totalItems == 0
      ensures filteredProducts == [] && categories == [] && selectedCategory == None
    {
      products, totalItems, cart := [], 0, [];
      filteredProducts, categories, selectedCategory := [], [], None;
    }

    /** The response of the catalog request made in `ngOnInit`. */
    method OnCatalogLoaded(res: seq<Product>)
      modifies this`products, this`filteredProducts, this`categories
      ensures products == res && filteredProducts == res
      ensures categories == Categories(res)
    {
      products := res;
      filteredProducts := res;
      categories := Categories(res);
    }

    method FilterByCategory(category: Option<string>)
      modifies this`selectedCategory, this`filteredProducts
      ensures selectedCategory == category
      ensures filteredProducts == ByCategory(products, category)
    {
      selectedCategory := category;
      if category.Some? && category.value != "" {
        filteredProducts := Filter(InCategory(category.value), products);
      } else {
        filteredProducts := products;
      }
    }

    method UpdateTotalItems()
      modifies this`totalItems
      ensures totalItems == TotalQuantity(cart)
    {
      totalItems := TotalQuantity(cart);
    }

    method AddToCart(p: Product)
      requires Valid()
      modifies this`cart, this`totalItems
      ensures Valid()
      ensures cart == Added(old(cart), p)
      ensures totalItems == old(totalItems) + 1
    {
      AddedSpec(cart, p);
      var found := FindLine(cart, p.id);
      if found.Some? {
        var k := found.value;
        cart := cart[k := cart[k].(quantity := cart[k].quantity + 1)];
      } else {
        cart := cart + [LineFor(p, 1)];
      }
      UpdateTotalItems();
    }

    /** `removeFromCart`, which reads only the id of its argument. */
    method RemoveFromCart(id: int)
      requires Valid()
      modifies this`cart, this`totalItems
      ensures Valid()
      ensures cart == Removed(old(cart), id)
    {
      RemovedKeepsWellFormed(cart, id);
      cart := Filter(LineIdIsNot(id), cart);
      UpdateTotalItems();
    }

    method IncreaseQuantity(index: int)
      requires Valid() && 0 <= index < |cart|
      modifies this`cart, this`totalItems
      ensures Valid()
      ensures cart == WithQuantity(old(cart), index, old(cart)[index].quantity + 1)
      ensures totalItems == old(totalItems) + 1
    {
      WithQuantitySpec(cart, index, cart[index].quantity + 1);
      cart := cart[index := cart[index].(quantity := cart[index].quantity + 1)];
      UpdateTotalItems();
    }

    method DecreaseQuantity(index: int)
      requires Valid() && 0 <= index < |cart|
      modifies this`cart, this`totalItems
      ensures Valid()
      ensures cart == Decreased(old(cart), index)
      ensures totalItems == old(totalItems) - 1
    {
      DecreasedSpec(cart, index);
      if cart[index].quantity > 1 {
        cart := cart[index := cart[index].(quantity := cart[index].quantity - 1)];
      } else {
        RemoveFromCart(cart[index].id);
      }
      UpdateTotalItems();
    }

    method ClearCart()
      modifies this`cart, this`totalItems
      ensures Valid()
      ensures cart == [] && totalItems == 0
    {
      cart := [];
      totalItems := 0;
    }
  }
}

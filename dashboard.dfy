/** The dashboard: one request for at most 100 products, four figures computed
    from the list it returns, the first five products as "recent", and the
    same stock label as the products page. */
module Dashboard {
  import opened Common
  import opened ProductEntity
  import opened ProductRepository
  import opened ErrorHandler
  import PP = ProductsPage
  import PC = ProductController

  /** The limit the dashboard asks for. */
  const FetchLimit := 100
  /** How many products the "recent" table shows. */
  const RecentCount := 5

  /** The four figures of the stat cards; the value is in cents. */
  datatype Stats = Stats(totalProducts: nat, totalValue: int, lowStock: nat, outOfStock: nat)

  /** The figures before anything was fetched. */
  const InitialStats := Stats(0, 0, 0, 0)

  /** `reduce((sum, p) => sum + p.price * p.quantity, 0)`. */
  function TotalValue(products: seq<ProductRecord>): (v: int)
    ensures (forall k :: 0 <= k < |products| ==> products[k].quantity == 0 || products[k].price == 0) ==> v == 0
  {
    if products == [] then 0
    else TotalValue(products[..|products| - 1]) + products[|products| - 1].price * products[|products| - 1].quantity
  }

  /** `filter(p => p.quantity > 0 && p.quantity <= 10).length`. */
  function LowStockCount(products: seq<ProductRecord>): (n: nat)
    ensures n <= |products|
  {
    if products == [] then 0
    else (if 0 < products[0].quantity <= PP.LowStockMax then 1 else 0) + LowStockCount(products[1..])
  }

  /** `filter(p => p.quantity === 0).length`. */
  function OutOfStockCount(products: seq<ProductRecord>): (n: nat)
    ensures n <= |products|
  {
    if products == [] then 0
    else (if products[0].quantity == 0 then 1 else 0) + OutOfStockCount(products[1..])
  }

  /** The figures for a fetched list. */
  function StatsOf(products: seq<ProductRecord>): (st: Stats)
    ensures st.totalProducts == |products|
    ensures st.lowStock + st.outOfStock <= st.totalProducts
  {
    ClassesAtMostTotal(products);
    Stats(|products|, TotalValue(products), LowStockCount(products), OutOfStockCount(products))
  }

  /** `products.slice(0, 5)`. */
  function Recent(products: seq<ProductRecord>): (r: seq<ProductRecord>)
    ensures |r| == Min(RecentCount, |products|)
    ensures forall k :: 0 <= k < |r| ==> r[k] == products[k]
  {
    products[..Min(RecentCount, |products|)]
  }

  /** The state of the page: the fetched list and its figures. */
  datatype View = View(products: seq<ProductRecord>, stats: Stats)

  /** What the page holds after the request: the list and its figures when
      the answer carries a page, otherwise the empty list and the initial
      figures (the error is only logged). */
  function Load(resp: HttpResponse<Page>): (v: View)
    ensures v.stats == StatsOf(v.products)
    ensures resp.success && resp.data.Some? ==> v.products == resp.data.value.products
    ensures !(resp.success && resp.data.Some?) ==> v.products == [] && v.stats == InitialStats
  {
    if resp.success && resp.data.Some? then View(resp.data.value.products, StatsOf(resp.data.value.products))
    else View([], InitialStats)
  }

  /** The low and out-of-stock counts are the sizes of the products page's
      "low-stock" and "out-of-stock" lists without a search term or type. */
  lemma {:induction false} CountsMatchStockFilter(products: seq<ProductRecord>)
    ensures LowStockCount(products) == |PP.Filter(products, "", "", PP.LowStock)|
    ensures OutOfStockCount(products) == |PP.Filter(products, "", "", PP.OutOfStock)|
  {
    if products != [] {
      PP.IncludesEmpty(Lower(products[0].name));
      CountsMatchStockFilter(products[1..]);
    }
  }

  /** A product is low or out of stock, not both, so the two counts together
      are at most the number of products. */
  lemma {:induction false} ClassesAtMostTotal(products: seq<ProductRecord>)
    ensures LowStockCount(products) + OutOfStockCount(products) <= |products|
  {
    if products != [] {
      ClassesAtMostTotal(products[1..]);
    }
  }

  /** The value of a list is the value of its first product plus the value of
      the rest, whatever the order of summation. */
  lemma {:induction false} TotalValueCons(products: seq<ProductRecord>)
    requires products != []
    ensures TotalValue(products) == products[0].price * products[0].quantity + TotalValue(products[1..])
    decreases |products|
  {
    if |products| > 1 {
      var front := products[..|products| - 1];
      TotalValueCons(front);
      assert front[1..] == products[1..][..|products[1..]| - 1];
      assert front[0] == products[0];
    } else {
      assert products[..0] == [];
      assert products[1..] == [];
    }
  }

  /** With prices and quantities of at least 0 the value is at least 0, and it
      is 0 when every product is out of stock. */
  lemma {:induction false} TotalValueBounds(products: seq<ProductRecord>)
    requires forall k :: 0 <= k < |products| ==> products[k].price >= 0 && products[k].quantity >= 0
    ensures TotalValue(products) >= 0
    ensures OutOfStockCount(products) == |products| ==> TotalValue(products) == 0
  {
    if products != [] {
      TotalValueCons(products);
      TotalValueBounds(products[1..]);
      MulMonotone(0, products[0].price, products[0].quantity);
    }
    if OutOfStockCount(products) == |products| {
      AllOutOfStock(products);
    }
  }

  /** When every product counts as out of stock, every quantity is 0. */
  lemma {:induction false} AllOutOfStock(products: seq<ProductRecord>)
    requires OutOfStockCount(products) == |products|
    ensures forall k :: 0 <= k < |products| ==> products[k].quantity == 0
  {
    if products != [] {
      assert OutOfStockCount(products[1..]) <= |products[1..]|;
      AllOutOfStock(products[1..]);
      assert forall k :: 1 <= k < |products| ==> products[k] == products[1..][k - 1];
    }
  }

  /** The dashboard of a store: the request for 100 products succeeds, the
      list is the newest-first rows, at most 100 of them, the figures are
      the list's, and the recent table shows the five newest rows. */
  lemma {:induction false} DashboardOfStore(store: ProductStore, development: bool)
    requires store.Valid()
    ensures var view := Load(PC.GetProducts(store, None, Some(FetchLimit), development));
            var products := view.products;
            var stats := view.stats;
            && |products| == Min(FetchLimit, |store.rows|)
            && (forall k :: 0 <= k < |products| ==> products[k] == store.NewestFirst()[k])
            && stats.totalProducts == |products| <= FetchLimit
            && stats.lowStock + stats.outOfStock <= stats.totalProducts
            && Recent(products) == store.NewestFirst()[..Min(RecentCount, |store.rows|)]
  {
    PC.GetRouteStatuses(store, None, Some(FetchLimit), development);
    var resp := PC.GetProducts(store, None, Some(FetchLimit), development);
    var products := resp.data.value.products;
    ClassesAtMostTotal(products);
    var recent := Recent(products);
    assert recent == store.NewestFirst()[..Min(RecentCount, |store.rows|)];
  }

  /** The label of the status column. */
  function StatusLabel(quantity: int): (l: string)
    ensures l == "Out of Stock" <==> quantity == 0
    ensures l == "In Stock" <==> quantity > 10
    ensures l == "Low Stock" <==> quantity != 0 && quantity <= 10
  {
    if quantity == 0 then "Out of Stock"
    else if quantity <= 10 then "Low Stock"
    else "In Stock"
  }

  /** The dashboard labels every quantity as the products page does, and on
      quantities of at least 0 its two counts use the labels' thresholds. */
  lemma SameThresholdsAsProductsPage()
    ensures forall q :: StatusLabel(q) == PP.StockLabel(q)
    ensures forall q :: q >= 0 ==> && ((0 < q <= PP.LowStockMax) <==> StatusLabel(q) == "Low Stock")
                                   && (q == 0 <==> StatusLabel(q) == "Out of Stock")
  {
  }
}

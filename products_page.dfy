/** The products page: the search, type and stock filters over the fetched
    list, the list of product types for the type filter, the stock label of a
    row, and when an edit of the quantity is sent to the backend. */
module ProductsPage {
  import opened Common
  import opened ProductEntity

  const InStock := "in-stock"
  const LowStock := "low-stock"
  const OutOfStock := "out-of-stock"
  /** The largest quantity that is still "low". */
  const LowStockMax := 10

  /** The search box: the lower-cased name or sku contains the lower-cased term. */
  predicate MatchesSearch(p: ProductRecord, term: string) {
    Includes(Lower(p.name), Lower(term)) || Includes(Lower(p.sku), Lower(term))
  }

  /** The type select: no choice, or exactly the product's type. */
  predicate MatchesType(p: ProductRecord, typeFilter: string) {
    typeFilter == "" || p.productType == typeFilter
  }

  /** The stock select; a value other than the three classes matches nothing. */
  predicate MatchesStock(p: ProductRecord, stockFilter: string) {
    || stockFilter == ""
    || (stockFilter == InStock && p.quantity > LowStockMax)
    || (stockFilter == LowStock && p.quantity > 0 && p.quantity <= LowStockMax)
    || (stockFilter == OutOfStock && p.quantity == 0)
  }

  /** Whether a product is listed under the three filter settings. */
  predicate Shown(p: ProductRecord, term: string, typeFilter: string, stockFilter: string) {
    MatchesSearch(p, term) && MatchesType(p, typeFilter) && MatchesStock(p, stockFilter)
  }

  /** `a` is `b` with some elements left out, the rest in the same order. */
  predicate SubsequenceOf<T(==)>(a: seq<T>, b: seq<T>)
    decreases |b|
  {
    if a == [] then true
    else if b == [] then false
    else if a[0] == b[0] then SubsequenceOf(a[1..], b[1..])
    else SubsequenceOf(a, b[1..])
  }

  /** `filteredProducts`: the listed products, in the order fetched. */
  function Filter(products: seq<ProductRecord>, term: string, typeFilter: string, stockFilter: string)
    : (r: seq<ProductRecord>)
    ensures SubsequenceOf(r, products)
    ensures forall p :: p in r <==> p in products && Shown(p, term, typeFilter, stockFilter)
    ensures |r| <= |products|
  {
    if products == [] then []
    else
      var rest := Filter(products[1..], term, typeFilter, stockFilter);
      assert forall p :: p in products <==> p == products[0] || p in products[1..];
      if Shown(products[0], term, typeFilter, stockFilter) then [products[0]] + rest
      else
        SubsequenceSkip(rest, products);
        rest
  }

  /** Leaving out the head of `b` keeps a subsequence of its tail a
      subsequence of `b`. */
  lemma {:induction false} SubsequenceSkip<T>(a: seq<T>, b: seq<T>)
    requires b != [] && SubsequenceOf(a, b[1..])
    ensures SubsequenceOf(a, b)
    decreases |b|, |a|
  {
    if a != [] && a[0] == b[0] {
      SubsequenceDropHead(a, b[1..]);
    }
  }

  /** The tail of a subsequence is a subsequence. */
  lemma {:induction false} SubsequenceDropHead<T>(a: seq<T>, b: seq<T>)
    requires a != [] && SubsequenceOf(a, b)
    ensures SubsequenceOf(a[1..], b)
    decreases |b|, |a|
  {
    if a[0] == b[0] {
      SubsequenceSkip(a[1..], b);
    } else {
      SubsequenceDropHead(a, b[1..]);
      SubsequenceSkip(a[1..], b);
    }
  }

  /** Every string includes the empty string. */
  lemma IncludesEmpty(s: string)
    ensures Includes(s, "")
  {
    IncludesAt(s, "", 0);
  }

  /** With an empty search term and no type or stock choice every product is
      listed, in the order fetched. */
  lemma {:induction false} NoFilterListsAll(products: seq<ProductRecord>)
    ensures Filter(products, "", "", "") == products
  {
    if products != [] {
      IncludesEmpty(Lower(products[0].name));
      NoFilterListsAll(products[1..]);
    }
  }

  /** The search ignores the case of ASCII letters: a term and its lower-cased
      form list the same products. */
  lemma {:induction false} SearchIgnoresCase(products: seq<ProductRecord>, term: string, typeFilter: string, stockFilter: string)
    ensures Filter(products, term, typeFilter, stockFilter) == Filter(products, Lower(term), typeFilter, stockFilter)
  {
    LowerIdempotent(term);
    if products != [] {
      SearchIgnoresCase(products[1..], term, typeFilter, stockFilter);
    }
  }

  lemma LowerIdempotent(s: string)
    ensures Lower(Lower(s)) == Lower(s)
  {
  }

  /** For a quantity of at least 0 exactly one of the three stock choices
      matches; a negative quantity matches none. */
  lemma StockClassesPartition(p: ProductRecord)
    ensures p.quantity >= 0 ==>
              (if MatchesStock(p, InStock) then 1 else 0) + (if MatchesStock(p, LowStock) then 1 else 0) +
              (if MatchesStock(p, OutOfStock) then 1 else 0) == 1
    ensures p.quantity < 0 ==> !MatchesStock(p, InStock) && !MatchesStock(p, LowStock) && !MatchesStock(p, OutOfStock)
  {
  }

  /** `productTypes`: each type of the fetched products once, in the order of
      its first occurrence. */
  function Types(products: seq<ProductRecord>): (ts: seq<string>)
    ensures forall t :: t in ts <==> exists i :: 0 <= i < |products| && products[i].productType == t
    ensures forall i, j :: 0 <= i < j < |ts| ==> ts[i] != ts[j]
    ensures |ts| <= |products|
  {
    if products == [] then []
    else
      var front := products[..|products| - 1];
      var t := products[|products| - 1].productType;
      var before := Types(front);
      assert forall i :: 0 <= i < |front| ==> front[i] == products[i];
      if t in before then before else before + [t]
  }

  /** Wherever a later entry of `ts` occurs in `products`, every earlier entry
      has already occurred. */
  predicate InFirstOccurrenceOrder(products: seq<ProductRecord>, ts: seq<string>) {
    forall i, j, l :: 0 <= i < j < |ts| && 0 <= l < |products| && products[l].productType == ts[j] ==>
      exists k :: 0 <= k < l && products[k].productType == ts[i]
  }

  /** `productTypes` lists the types in the order of their first occurrence. */
  lemma {:induction false} TypesInFirstOccurrenceOrder(products: seq<ProductRecord>)
    ensures InFirstOccurrenceOrder(products, Types(products))
  {
    if products != [] {
      var n := |products|;
      var front := products[..n - 1];
      var t := products[n - 1].productType;
      var before := Types(front);
      var ts := Types(products);
      TypesInFirstOccurrenceOrder(front);
      assert forall k :: 0 <= k < |front| ==> front[k] == products[k];
      forall i, j, l | 0 <= i < j < |ts| && 0 <= l < n && products[l].productType == ts[j]
        ensures exists k :: 0 <= k < l && products[k].productType == ts[i]
      {
        assert ts[i] in before;
        var k0 :| 0 <= k0 < |front| && front[k0].productType == ts[i];
        if l < n - 1 {
          assert front[l].productType == ts[j];
          assert ts[j] in before;
          assert j < |before| && ts[i] == before[i] && ts[j] == before[j];
          var k :| 0 <= k < l && front[k].productType == before[i];
          assert products[k].productType == ts[i];
        } else {
          assert products[k0].productType == ts[i];
        }
      }
    }
  }

  /** The label of the stock column. */
  function StockLabel(quantity: int): (l: string)
    ensures l == "Out of Stock" <==> quantity == 0
    ensures l == "In Stock" <==> quantity > LowStockMax
    ensures l == "Low Stock" <==> quantity != 0 && quantity <= LowStockMax
  {
    if quantity == 0 then "Out of Stock"
    else if quantity <= LowStockMax then "Low Stock"
    else "In Stock"
  }

  /** The label and the stock choices agree on every quantity of at least 0.
      A negative quantity, which the backend refuses to store, is labelled
      "Low Stock" but is in no stock class. */
  lemma LabelAgreesWithFilter(p: ProductRecord)
    ensures p.quantity >= 0 ==>
              && (StockLabel(p.quantity) == "Out of Stock" <==> MatchesStock(p, OutOfStock))
              && (StockLabel(p.quantity) == "Low Stock" <==> MatchesStock(p, LowStock))
              && (StockLabel(p.quantity) == "In Stock" <==> MatchesStock(p, InStock))
    ensures p.quantity < 0 ==> StockLabel(p.quantity) == "Low Stock" && !MatchesStock(p, LowStock)
  {
  }

  /** What an edit of the quantity sends: nothing, or an update of the
      product's quantity; `None` is a value that is not a number (NaN). */
  datatype QuantityRequest = Skip | SendQuantity(id: Option<int>, quantity: Option<int>)

  /** The inline input: `parseInt(value) || 0`, so text that is not a number
      becomes 0. */
  function InlineQuantity(parsed: Option<int>): (q: int)
    ensures parsed.None? ==> q == 0
    ensures parsed.Some? ==> q == parsed.value
  {
    if parsed.None? || parsed.value == 0 then 0 else parsed.value
  }

  /** Submitting the inline input sends the new quantity only when it differs
      from the shown one. */
  function InlineSubmit(p: ProductRecord, newQuantity: int): (req: QuantityRequest)
    ensures req.SendQuantity? <==> newQuantity != p.quantity
    ensures req.SendQuantity? ==> req.id == p.id && req.quantity == Some(newQuantity)
  {
    if newQuantity != p.quantity then SendQuantity(p.id, Some(newQuantity)) else Skip
  }

  /** Submitting the edit form sends `parseInt(quantity)` only when it differs
      from the product's quantity; NaN differs from every number. */
  function ModalSubmit(editing: ProductRecord, parsed: Option<int>): (req: QuantityRequest)
    ensures req.SendQuantity? <==> parsed != Some(editing.quantity)
    ensures req.SendQuantity? ==> req.id == editing.id && req.quantity == parsed
  {
    if parsed != Some(editing.quantity) then SendQuantity(editing.id, parsed) else Skip
  }

  /** Both edit paths send an update exactly when the quantity changed, for
      the edited product and with the new value; only the form can send NaN. */
  lemma UpdateOnlyWhenChanged(p: ProductRecord, input: Option<int>)
    ensures var q := InlineQuantity(input);
            && (InlineSubmit(p, q).SendQuantity? <==> q != p.quantity)
            && (InlineSubmit(p, q).SendQuantity? ==> InlineSubmit(p, q) == SendQuantity(p.id, Some(q)))
    ensures ModalSubmit(p, input).SendQuantity? <==> input.None? || input.value != p.quantity
    ensures ModalSubmit(p, input).SendQuantity? ==> ModalSubmit(p, input) == SendQuantity(p.id, input)
    ensures input.None? ==> InlineSubmit(p, InlineQuantity(input)) == (if p.quantity == 0 then Skip else SendQuantity(p.id, Some(0)))
  {
  }
}

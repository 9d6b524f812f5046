/** The create-product use case: five checks in a fixed order, each with its own
    message, then an insert through the repository. `quantity` and `price`
    arrive already parsed (price in cents); the text fields may be absent. */
module CreateProduct {
  import opened Common
  import opened ProductEntity
  import opened ProductModel
  import opened ProductRepository

  /** The request fields the use case reads. */
  datatype ProductInput = ProductInput(
    name: Option<string>,
    productType: Option<string>,
    sku: Option<string>,
    imageUrl: Option<string>,
    description: Option<string>,
    quantity: int,
    price: int)

  const Required := "Name, type, SKU, quantity, and price are required"
  const QuantityInvalid := "Quantity must be a non-negative number"
  const PriceInvalid := "Price must be a non-negative number"
  const SkuTooShort := "SKU must be at least 3 characters long"
  const SkuExists := "Product with this SKU already exists"

  /** The first check: every field is truthy. A number is falsy when it is 0,
      so a quantity or price of 0 counts as missing. */
  predicate Present(d: ProductInput) {
    Truthy(d.name) && Truthy(d.productType) && Truthy(d.sku) && d.quantity != 0 && d.price != 0
  }

  /** The message of the first of the four field checks that fails. */
  function InputError(d: ProductInput): (m: Option<string>)
    ensures m.None? <==> Present(d) && d.quantity > 0 && d.price > 0 && |d.sku.value| >= SkuMin
    ensures !Present(d) ==> m == Some(Required)
    ensures Present(d) && d.quantity < 0 ==> m == Some(QuantityInvalid)
    ensures Present(d) && d.quantity > 0 && d.price < 0 ==> m == Some(PriceInvalid)
    ensures Present(d) && d.quantity > 0 && d.price > 0 && |d.sku.value| < SkuMin ==> m == Some(SkuTooShort)
  {
    if !Present(d) then Some(Required)
    else if d.quantity < 0 then Some(QuantityInvalid)
    else if d.price < 0 then Some(PriceInvalid)
    else if |d.sku.value| < SkuMin then Some(SkuTooShort)
    else None
  }

  /** Whether some row already holds `sku`. */
  predicate SkuInUse(rows: map<int, ProductRecord>, sku: string) {
    exists id :: id in rows && rows[id].sku == sku
  }

  /** The row the insert writes for checked input: the next id and the store's
      next timestamp. */
  function NewRow(d: ProductInput, nextId: int, clock: nat): ProductRecord
    requires InputError(d).None?
  {
    ProductRecord(Some(nextId), d.name.value, d.productType.value, d.sku.value,
                  d.imageUrl, d.description, d.quantity, d.price, clock + 1, clock + 1)
  }

  /** What `execute` answers on a table with rows `rows`, auto-increment value
      `nextId` and clock `clock`. */
  function Outcome(rows: map<int, ProductRecord>, nextId: int, clock: nat, d: ProductInput): (r: Result<ProductRecord>)
    ensures r.Fail? ==> r.error.message in {Required, QuantityInvalid, PriceInvalid, SkuTooShort, SkuExists}
                        || CreatePrefix <= r.error.message
    ensures r.Ok? ==> r.value.id == Some(nextId) && RowValid(r.value) && !SkuTaken(rows, r.value.sku, nextId)
  {
    var m := InputError(d);
    if m.Some? then Fail(Error(m.value))
    else if SkuInUse(rows, d.sku.value) then Fail(Error(SkuExists))
    else
      var why := Rejection(rows, nextId, NewRow(d, nextId, clock));
      if why.Some? then Fail(Error(CreatePrefix + why.value))
      else Ok(NewRow(d, nextId, clock))
  }

  /** `execute(productData)` at time `now`: the entity's own timestamps are
      replaced by the store's. */
  method Execute(store: ProductStore, d: ProductInput, now: nat) returns (r: Result<ProductRecord>)
    requires store.Valid()
    modifies store
    ensures store.Valid()
    ensures r == Outcome(old(store.rows), old(store.nextId), old(store.clock), d)
    ensures r.Fail? ==> unchanged(store)
    ensures r.Ok? ==> && store.rows == old(store.rows)[old(store.nextId) := r.value]
                      && store.order == old(store.order) + [old(store.nextId)]
                      && store.nextId == old(store.nextId) + 1
                      && store.clock == old(store.clock) + 1
  {
    var m := InputError(d);
    if m.Some? {
      return Fail(Error(m.value));
    }
    var existing := store.FindBySku(d.sku.value);
    if existing.Some? {
      return Fail(Error(SkuExists));
    }
    var product := Product.Create(d.name.value, d.productType.value, d.sku.value,
                                  d.imageUrl, d.description, d.quantity, d.price, now);
    r := store.Create(product);
  }

  /** Quantity 0 and price 0 are refused as missing before any other check,
      although the table would store either. */
  lemma {:induction false} ZeroRefusedAsMissing(rows: map<int, ProductRecord>, nextId: int, clock: nat, d: ProductInput)
    requires d.quantity == 0 || d.price == 0
    ensures Outcome(rows, nextId, clock, d) == Fail(Error(Required))
  {
  }

  /** A concrete input with quantity 0 that the table accepts but the use case
      refuses: the guard is stricter than the column constraint. */
  lemma ZeroQuantityStorableButRefused()
    ensures var d := ProductInput(Some("Widget"), Some("Tool"), Some("WID-001"), None, None, 0, 999);
            && Outcome(map[], 1, 0, d) == Fail(Error(Required))
            && RowValid(ProductRecord(Some(1), "Widget", "Tool", "WID-001", None, None, 0, 999, 1, 1))
  {
  }

  /** Every refusal names the first failing check, in the order required
      fields, quantity, price, sku length, sku uniqueness, table constraints. */
  lemma {:induction false} FailuresInOrder(rows: map<int, ProductRecord>, nextId: int, clock: nat, d: ProductInput)
    ensures !Present(d) ==> Outcome(rows, nextId, clock, d) == Fail(Error(Required))
    ensures Present(d) && d.quantity < 0 ==> Outcome(rows, nextId, clock, d) == Fail(Error(QuantityInvalid))
    ensures Present(d) && d.quantity > 0 && d.price < 0 ==> Outcome(rows, nextId, clock, d) == Fail(Error(PriceInvalid))
    ensures Present(d) && d.quantity > 0 && d.price > 0 && |d.sku.value| < SkuMin ==>
              Outcome(rows, nextId, clock, d) == Fail(Error(SkuTooShort))
    ensures InputError(d).None? && SkuInUse(rows, d.sku.value) ==>
              Outcome(rows, nextId, clock, d) == Fail(Error(SkuExists))
  {
  }

  /** A product is created exactly when the input passes the use case's checks,
      its sku is new and its fields fit the columns; the new row carries the
      given fields, the next id, and keeps the table valid. */
  lemma {:induction false} CreatedIffAccepted(rows: map<int, ProductRecord>, nextId: int, clock: nat, d: ProductInput)
    requires TableValid(rows, nextId)
    ensures Outcome(rows, nextId, clock, d).Ok? <==>
              && InputError(d).None? && !SkuInUse(rows, d.sku.value)
              && RowValid(NewRow(d, nextId, clock))
    ensures Outcome(rows, nextId, clock, d).Ok? ==>
              var row := Outcome(rows, nextId, clock, d).value;
              && row.id == Some(nextId)
              && Some(row.name) == d.name && Some(row.productType) == d.productType
              && Some(row.sku) == d.sku && row.imageUrl == d.imageUrl
              && row.description == d.description
              && row.quantity == d.quantity && row.quantity > 0 && row.price == d.price && row.price > 0
              && TableValid(rows[nextId := row], nextId + 1)
  {
    if Outcome(rows, nextId, clock, d).Ok? {
      var row := Outcome(rows, nextId, clock, d).value;
      var rows' := rows[nextId := row];
      assert forall a :: a in rows' && a != nextId ==> a in rows;
      assert SkuUnique(rows');
    } else if InputError(d).None? && !SkuInUse(rows, d.sku.value) {
      assert !SkuTaken(rows, d.sku.value, nextId);
    }
  }
}

/** The update-quantity use case: two input checks, a lookup, the entity's own
    `updateQuantity`, and a write-back of the whole entity through the
    repository's general `update`. */
module UpdateQuantity {
  import opened Common
  import opened ProductEntity
  import opened ProductModel
  import opened ProductRepository

  const IdRequired := "Product ID is required"
  const QuantityInvalid := "Quantity must be a non-negative number"
  const ProductNotFound := "Product not found"

  /** What `execute(id, quantity)` answers on a table with rows `rows` and clock
      `clock`. A falsy id is 0. */
  function Outcome(rows: map<int, ProductRecord>, clock: nat, id: int, quantity: int): (r: Result<ProductRecord>)
    ensures r.Fail? ==> r.error.message in {IdRequired, QuantityInvalid, ProductNotFound}
                        || UpdatePrefix <= r.error.message
    ensures r.Ok? ==> id in rows && r.value.quantity == quantity && r.value.id == rows[id].id && RowValid(r.value)
  {
    if id == 0 then Fail(Error(IdRequired))
    else if quantity < 0 then Fail(Error(QuantityInvalid))
    else if id !in rows then Fail(Error(ProductNotFound))
    else
      var row := rows[id].(quantity := quantity, updatedAt := clock + 1);
      var why := Rejection(rows, id, row);
      if why.Some? then Fail(Error(UpdatePrefix + why.value)) else Ok(row)
  }

  /** `execute(id, quantity)`; `now` is the time the entity stamps itself with,
      which the store replaces by its own. */
  method Execute(store: ProductStore, id: int, quantity: int, now: nat) returns (r: Result<ProductRecord>)
    requires store.Valid()
    modifies store
    ensures store.Valid()
    ensures r == Outcome(old(store.rows), old(store.clock), id, quantity)
    ensures r.Fail? ==> unchanged(store)
    ensures r.Ok? ==> && store.rows == old(store.rows)[id := r.value]
                      && store.order == old(store.order) && store.nextId == old(store.nextId)
                      && store.clock == old(store.clock) + 1
  {
    if id == 0 {
      return Fail(Error(IdRequired));
    }
    if quantity < 0 {
      return Fail(Error(QuantityInvalid));
    }
    var found := store.FindById(id);
    if found.None? {
      return Fail(Error(ProductNotFound));
    }
    var product := Product.FromRecord(found.value);
    var thrown := product.UpdateQuantity(quantity, now);
    assert thrown.None?;
    r := store.Update(product);
  }

  /** The refusals in order: id, quantity, existence; each leaves the message
      exactly as written (the controller compares "Product not found" whole). */
  lemma {:induction false} FailuresInOrder(rows: map<int, ProductRecord>, clock: nat, id: int, quantity: int)
    ensures id == 0 ==> Outcome(rows, clock, id, quantity) == Fail(Error(IdRequired))
    ensures id != 0 && quantity < 0 ==> Outcome(rows, clock, id, quantity) == Fail(Error(QuantityInvalid))
    ensures id != 0 && quantity >= 0 && id !in rows ==> Outcome(rows, clock, id, quantity) == Fail(Error(ProductNotFound))
  {
  }

  /** On a valid table the update succeeds exactly for a stored id and a
      quantity the column holds, and then only the quantity and `updatedAt` of
      that row change: the fields written back are the ones just read. */
  lemma {:induction false} OnlyQuantityChanges(rows: map<int, ProductRecord>, nextId: int, clock: nat, id: int, quantity: int)
    requires TableValid(rows, nextId)
    ensures Outcome(rows, clock, id, quantity).Ok? <==> id != 0 && id in rows && 0 <= quantity <= IntegerMax
    ensures Outcome(rows, clock, id, quantity).Ok? ==>
              var row := Outcome(rows, clock, id, quantity).value;
              && row.quantity == quantity && row.updatedAt == clock + 1
              && row.id == rows[id].id && row.name == rows[id].name
              && row.productType == rows[id].productType && row.sku == rows[id].sku
              && row.imageUrl == rows[id].imageUrl && row.description == rows[id].description
              && row.price == rows[id].price && row.createdAt == rows[id].createdAt
              && TableValid(rows[id := row], nextId)
  {
    if id != 0 && id in rows && 0 <= quantity <= IntegerMax {
      var row := rows[id].(quantity := quantity, updatedAt := clock + 1);
      assert !SkuTaken(rows, row.sku, id);
      var rows' := rows[id := row];
      assert forall a :: a in rows' && a != id ==> a in rows && rows'[a] == rows[a];
      assert SkuUnique(rows');
    }
  }

  /** Setting the same quantity twice leaves the quantity of the first call. */
  lemma {:induction false} RepeatKeepsQuantity(rows: map<int, ProductRecord>, nextId: int, clock: nat, id: int, quantity: int)
    requires TableValid(rows, nextId)
    requires Outcome(rows, clock, id, quantity).Ok?
    ensures var rows' := rows[id := Outcome(rows, clock, id, quantity).value];
            && Outcome(rows', clock + 1, id, quantity).Ok?
            && Outcome(rows', clock + 1, id, quantity).value.quantity == Outcome(rows, clock, id, quantity).value.quantity
            && Outcome(rows', clock + 1, id, quantity).value == Outcome(rows, clock, id, quantity).value.(updatedAt := clock + 2)
  {
    OnlyQuantityChanges(rows, nextId, clock, id, quantity);
    var rows' := rows[id := Outcome(rows, clock, id, quantity).value];
    OnlyQuantityChanges(rows', nextId, clock + 1, id, quantity);
  }
}

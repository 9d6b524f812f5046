/** The ORM definition of the `products` table, read as the invariant every
    stored row satisfies, and the validators the ORM runs before it writes.
    Prices are integer cents, so DECIMAL(10,2) holds 0 .. 10^10 - 1 cents. */
module ProductModel {
  import opened Common
  import opened ProductEntity

  const NameMin := 1
  const NameMax := 100
  const TypeMin := 1
  const TypeMax := 50
  const SkuMin := 3
  const SkuMax := 50
  /** The quantity an insert stores when none is supplied. */
  const QuantityDefault := 0
  /** The largest value of a SQL INTEGER column. */
  const IntegerMax := 0x7fff_ffff
  /** DECIMAL(10,2): ten digits, two of them after the point. */
  const PriceCentsLimit := 10_000_000_000

  /** The declared constraints on one row, field by field. */
  predicate RowValid(r: ProductRecord) {
    && NameMin <= |r.name| <= NameMax
    && TypeMin <= |r.productType| <= TypeMax
    && SkuMin <= |r.sku| <= SkuMax
    && 0 <= r.quantity <= IntegerMax
    && 0 <= r.price < PriceCentsLimit
  }

  /** The messages of the validators a row fails, in the order the fields are
      declared (name, type, sku, quantity, price). */
  function Violations(r: ProductRecord): (vs: seq<string>)
    ensures vs == [] <==> RowValid(r)
    ensures |vs| <= 5
  {
    (if NameMin <= |r.name| <= NameMax then [] else ["Validation len on name failed"]) +
    (if TypeMin <= |r.productType| <= TypeMax then [] else ["Validation len on type failed"]) +
    (if SkuMin <= |r.sku| <= SkuMax then [] else ["Validation len on sku failed"]) +
    (if 0 <= r.quantity <= IntegerMax then [] else ["Validation min on quantity failed"]) +
    (if 0 <= r.price < PriceCentsLimit then [] else ["Validation min on price failed"])
  }

  /** Two rows with the same SKU are the same row (the unique index). */
  predicate SkuUnique(rows: map<int, ProductRecord>) {
    forall a, b :: a in rows && b in rows && rows[a].sku == rows[b].sku ==> a == b
  }

  /** Every row carries its own key as id and satisfies the field constraints;
      ids are assigned by auto-increment, so they lie in [1, nextId). */
  predicate TableValid(rows: map<int, ProductRecord>, nextId: int) {
    && 1 <= nextId
    && (forall id :: id in rows ==> 1 <= id < nextId && rows[id].id == Some(id) && RowValid(rows[id]))
    && SkuUnique(rows)
  }

  /** imageUrl and description are nullable: a row is valid whatever they hold. */
  lemma OptionalFieldsUnconstrained(r: ProductRecord, imageUrl: Option<string>, description: Option<string>)
    ensures RowValid(r) <==> RowValid(r.(imageUrl := imageUrl, description := description))
  {
  }
}

/** The domain entity `Product`: ten fields, a factory for new products, an
    in-place quantity update guarded against negative values, and `toJSON`.
    Prices are integer cents; timestamps are values of an abstract clock. */
module ProductEntity {
  import opened Common

  /** The plain object that `toJSON` returns. The same ten fields make up a row
      of the product table. `id` is absent (null) until the store assigns one. */
  datatype ProductRecord = ProductRecord(
    id: Option<int>,
    name: string,
    productType: string,
    sku: string,
    imageUrl: Option<string>,
    description: Option<string>,
    quantity: int,
    price: int,
    createdAt: nat,
    updatedAt: nat)

  const NegativeQuantity := "Quantity cannot be negative"

  /** What `updateQuantity(n)` does to an entity whose fields are `r`, at time
      `now`: it throws before touching anything when `n` is negative, otherwise
      it sets the quantity and refreshes `updatedAt`. */
  function QuantityUpdated(r: ProductRecord, n: int, now: nat): (u: Result<ProductRecord>)
    ensures u.Fail? <==> n < 0
    ensures u.Ok? ==> u.value.quantity == n && u.value.updatedAt == now
  {
    if n < 0 then Fail(Error(NegativeQuantity))
    else Ok(r.(quantity := n, updatedAt := now))
  }

  /** Only the quantity and `updatedAt` can differ after a successful update;
      a failed one is the negative-quantity error. */
  lemma QuantityUpdatedKeepsIdentity(r: ProductRecord, n: int, now: nat)
    ensures QuantityUpdated(r, n, now).Fail? <==> n < 0
    ensures n < 0 ==> QuantityUpdated(r, n, now) == Fail(Error(NegativeQuantity))
    ensures QuantityUpdated(r, n, now).Ok? ==>
      var r' := QuantityUpdated(r, n, now).value;
      r'.quantity == n && r'.updatedAt == now &&
      r'.id == r.id && r'.name == r.name && r'.productType == r.productType &&
      r'.sku == r.sku && r'.imageUrl == r.imageUrl && r'.description == r.description &&
      r'.price == r.price && r'.createdAt == r.createdAt
  {
  }

  /** Applying the same quantity twice leaves what applying it once left. */
  lemma QuantityUpdatedIdempotent(r: ProductRecord, n: int, now: nat, later: nat)
    requires n >= 0
    ensures QuantityUpdated(QuantityUpdated(r, n, now).value, n, later).value.quantity
         == QuantityUpdated(r, n, now).value.quantity
    ensures QuantityUpdated(QuantityUpdated(r, n, now).value, n, now) == QuantityUpdated(r, n, now)
  {
  }

  class Product {
    var id: Option<int>
    var name: string
    var productType: string
    var sku: string
    var imageUrl: Option<string>
    var description: Option<string>
    var quantity: int
    var price: int
    var createdAt: nat
    var updatedAt: nat

    /** The constructor stores its ten arguments unchanged. */
    constructor (id: Option<int>, name: string, productType: string, sku: string,
                 imageUrl: Option<string>, description: Option<string>,
                 quantity: int, price: int, createdAt: nat, updatedAt: nat)
      ensures ToJson() == ProductRecord(id, name, productType, sku, imageUrl, description,
                                        quantity, price, createdAt, updatedAt)
    {
      this.id := id;
      this.name := name;
      this.productType := productType;
      this.sku := sku;
      this.imageUrl := imageUrl;
      this.description := description;
      this.quantity := quantity;
      this.price := price;
      this.createdAt := createdAt;
      this.updatedAt := updatedAt;
    }

    /** `Product.create`: a product without an id, both timestamps `now`. */
    static method Create(name: string, productType: string, sku: string,
                         imageUrl: Option<string>, description: Option<string>,
                         quantity: int, price: int, now: nat) returns (p: Product)
      ensures fresh(p)
      ensures p.ToJson() == ProductRecord(None, name, productType, sku, imageUrl, description,
                                          quantity, price, now, now)
    {
      p := new Product(None, name, productType, sku, imageUrl, description, quantity, price, now, now);
    }

    /** Rebuilding an entity from a `toJSON` value (as the repository does from a
        row) gives an entity whose `toJSON` is that value again. */
    static method FromRecord(r: ProductRecord) returns (p: Product)
      ensures fresh(p) && p.ToJson() == r
    {
      p := new Product(r.id, r.name, r.productType, r.sku, r.imageUrl, r.description,
                       r.quantity, r.price, r.createdAt, r.updatedAt);
    }

    /** `updateQuantity(newQuantity)` at time `now`; the thrown error is returned. */
    method UpdateQuantity(newQuantity: int, now: nat) returns (thrown: Option<Exception>)
      modifies this
      ensures QuantityUpdated(old(ToJson()), newQuantity, now) ==
              (if thrown.Some? then Fail(thrown.value) else Ok(ToJson()))
      ensures thrown.Some? ==> ToJson() == old(ToJson())
    {
      if newQuantity < 0 {
        return Some(Error(NegativeQuantity));
      }
      quantity := newQuantity;
      updatedAt := now;
      thrown := None;
    }

    /** `toJSON`: all ten fields with their current values. */
    function ToJson(): (r: ProductRecord)
      reads this
      ensures r.id == id && r.name == name && r.productType == productType && r.sku == sku
      ensures r.imageUrl == imageUrl && r.description == description
      ensures r.quantity == quantity && r.price == price
      ensures r.createdAt == createdAt && r.updatedAt == updatedAt
    {
      ProductRecord(id, name, productType, sku, imageUrl, description, quantity, price, createdAt, updatedAt)
    }
  }

  /** A client of the entity: a second `updateQuantity` with the same value
      leaves the quantity the first one set, and identity fields never move. */
  method UpdateQuantityTwice(p: Product, n: int, now: nat, later: nat)
    requires n >= 0
    modifies p
    ensures p.quantity == n && p.updatedAt == later
    ensures p.ToJson() == old(p.ToJson()).(quantity := n, updatedAt := later)
  {
    var first := p.UpdateQuantity(n, now);
    var q := p.quantity;
    var second := p.UpdateQuantity(n, later);
    assert p.quantity == q;
  }
}

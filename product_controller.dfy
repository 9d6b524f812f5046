/** The product controller: each handler runs its use case and either
    answers (201/200, or 409/404 for the one error it recognises) or forwards
    the error to the error handler. */
module ProductController {
  import opened Common
  import opened ProductEntity
  import opened ProductModel
  import opened ProductRepository
  import opened ErrorHandler
  import CP = CreateProduct
  import UQ = UpdateQuantity
  import GP = GetProducts

  const Created := "Product created successfully"
  const QuantityUpdated := "Product quantity updated successfully"
  const Retrieved := "Products retrieved successfully"

  /** `createProduct`'s choice: 201 with the view, 409 for an error that
      mentions "already exists", anything else forwarded. */
  function CreateReply(r: Result<ProductRecord>): (rep: Reply<ProductRecord>)
    ensures r.Ok? ==> rep.Respond? && rep.status == 201 && rep.success && rep.data == Some(r.value)
    ensures r.Fail? && Includes(r.error.message, "already exists") ==>
              rep.Respond? && rep.status == 409 && !rep.success && rep.message == r.error.message
    ensures rep.Forward? <==> r.Fail? && !Includes(r.error.message, "already exists")
    ensures rep.Forward? ==> rep.err == r.error
  {
    if r.Ok? then Respond(201, true, Created, Some(r.value))
    else if Includes(r.error.message, "already exists") then Respond(409, false, r.error.message, None)
    else Forward(r.error)
  }

  /** `updateProductQuantity`'s choice: 200 with the view, 404 for exactly
      "Product not found", anything else forwarded. */
  function UpdateQuantityReply(r: Result<ProductRecord>): (rep: Reply<ProductRecord>)
    ensures r.Ok? ==> rep.Respond? && rep.status == 200 && rep.success && rep.data == Some(r.value)
    ensures r.Fail? && r.error.message == UQ.ProductNotFound ==>
              rep.Respond? && rep.status == 404 && !rep.success && rep.message == UQ.ProductNotFound
    ensures rep.Forward? <==> r.Fail? && r.error.message != UQ.ProductNotFound
    ensures rep.Forward? ==> rep.err == r.error
  {
    if r.Ok? then Respond(200, true, QuantityUpdated, Some(r.value))
    else if r.error.message == UQ.ProductNotFound then Respond(404, false, r.error.message, None)
    else Forward(r.error)
  }

  /** `getProducts`'s choice: 200 with the page, any error forwarded. */
  function GetProductsReply(r: Result<Page>): Reply<Page> {
    if r.Ok? then Respond(200, true, Retrieved, Some(r.value)) else Forward(r.error)
  }

  /** POST /products with the parsed body `d`. */
  method CreateProduct(store: ProductStore, d: CP.ProductInput, now: nat, development: bool)
    returns (resp: HttpResponse<ProductRecord>)
    requires store.Valid()
    modifies store
    ensures store.Valid()
    ensures resp == Served(CreateReply(CP.Outcome(old(store.rows), old(store.nextId), old(store.clock), d)), development)
    ensures !resp.success ==> unchanged(store)
    ensures resp.success ==> && resp.data.Some?
                             && store.rows == old(store.rows)[old(store.nextId) := resp.data.value]
                             && store.order == old(store.order) + [old(store.nextId)]
                             && store.nextId == old(store.nextId) + 1
                             && store.clock == old(store.clock) + 1
  {
    var r := CP.Execute(store, d, now);
    resp := Served(CreateReply(r), development);
  }

  /** PUT /products/:id/quantity with the parsed id and quantity. */
  method UpdateProductQuantity(store: ProductStore, id: int, quantity: int, now: nat, development: bool)
    returns (resp: HttpResponse<ProductRecord>)
    requires store.Valid()
    modifies store
    ensures store.Valid()
    ensures resp == Served(UpdateQuantityReply(UQ.Outcome(old(store.rows), old(store.clock), id, quantity)), development)
    ensures !resp.success ==> unchanged(store)
    ensures resp.success ==> && resp.data.Some?
                             && store.rows == old(store.rows)[id := resp.data.value]
                             && store.order == old(store.order) && store.nextId == old(store.nextId)
                             && store.clock == old(store.clock) + 1
  {
    var r := UQ.Execute(store, id, quantity, now);
    resp := Served(UpdateQuantityReply(r), development);
  }

  /** GET /products with the parsed query; an absent parameter is 1 or 10. */
  function GetProducts(store: ProductStore, page: Option<int>, limit: Option<int>, development: bool): (resp: HttpResponse<Page>)
    requires store.Valid()
    reads store
    ensures var p := if page.Some? then page.value else 1;
            var l := if limit.Some? then limit.value else 10;
            resp == Served(GetProductsReply(GP.Execute(store, Some(p), Some(l))), development)
  {
    Served(GetProductsReply(GP.Execute(store, Some(if page.Some? then page.value else 1),
                                       Some(if limit.Some? then limit.value else 10))), development)
  }

  // Which rule each message of the routes matches. Every negative fact is
  // read off a few characters the message does not contain.

  lemma RequiredAvoids() ensures Avoids(CP.Required, "l") {
    AvoidsConcat("Name, type, SKU, ", "quantity, and price are required", "l");
  }

  lemma RequiredMentionsRequired() ensures Includes(CP.Required, "required") {
    IncludesAt(CP.Required, "required", 41);
  }

  /** The required-fields message selects 400 and does not say "already exists". */
  lemma RequiredIsBadRequest()
    ensures StatusOf(CP.Required) == 400 && !Includes(CP.Required, "already exists")
  {
    RequiredAvoids();
    NotIncludesAvoided(CP.Required, "already exists", 1, "l");
    RequiredMentionsRequired();
    FirstMatchStatus(CP.Required, 0, false);
  }

  /** The id check's message selects 400. */
  lemma IdRequiredIsBadRequest()
    ensures StatusOf(UQ.IdRequired) == 400
  {
    IncludesAt(UQ.IdRequired, "required", 14);
    FirstMatchStatus(UQ.IdRequired, 0, false);
  }

  lemma NegativeQuantityAvoids() ensures Avoids(NegativeQuantity, "rf") { }

  lemma NegativeQuantityMentionsNegative() ensures Includes(NegativeQuantity, "cannot be negative") {
    IncludesAt(NegativeQuantity, "cannot be negative", 9);
  }

  /** The entity's own quantity check, which the use cases never reach, would
      select 400 through "cannot be negative". */
  lemma NegativeQuantityIsBadRequest()
    ensures StatusOf(NegativeQuantity) == 400
  {
    NegativeQuantityAvoids();
    AvoidedRules(NegativeQuantity, "rf", [0, 4, 2, 9]);
    NegativeQuantityMentionsNegative();
    FirstMatchStatus(NegativeQuantity, 4, false);
  }

  lemma SkuExistsAvoids() ensures Avoids(CP.SkuExists, "qn") { }

  lemma SkuExistsMentionsExists() ensures Includes(CP.SkuExists, "already exists") {
    IncludesAt(CP.SkuExists, "already exists", 22);
  }

  /** The duplicate sku message says "already exists". */
  lemma SkuExistsIsConflict()
    ensures Includes(CP.SkuExists, "already exists") && StatusOf(CP.SkuExists) == 409
  {
    SkuExistsAvoids();
    AvoidedRules(CP.SkuExists, "qn", [2, 0]);
    SkuExistsMentionsExists();
    FirstMatchStatus(CP.SkuExists, 2, false);
  }

  lemma QuantityInvalidAvoids() ensures Avoids(CP.QuantityInvalid, "qflc") { }

  /** The quantity message matches no rule. */
  lemma QuantityInvalidIsServerError()
    ensures StatusOf(CP.QuantityInvalid) == 500 && !Includes(CP.QuantityInvalid, "already exists")
  {
    QuantityInvalidAvoids();
    AvoidedRules(CP.QuantityInvalid, "qflc", [2, 4, 1, 4, 0]);
    FirstMatchStatus(CP.QuantityInvalid, 5, false);
  }

  lemma PriceInvalidAvoids() ensures Avoids(CP.PriceInvalid, "qfl") { }

  lemma PriceInvalidNotNegative() ensures !Includes(CP.PriceInvalid, "cannot be negative") {
    NotIncludesOnlyAt(CP.PriceInvalid, "cannot be negative", 3);
  }

  /** The price message matches no rule: its only 'c' is followed by 'e'. */
  lemma PriceInvalidIsServerError()
    ensures StatusOf(CP.PriceInvalid) == 500 && !Includes(CP.PriceInvalid, "already exists")
  {
    PriceInvalidAvoids();
    AvoidedRules(CP.PriceInvalid, "qfl", [2, 4, 1, 4]);
    PriceInvalidNotNegative();
    FirstMatchStatus(CP.PriceInvalid, 5, false);
  }

  lemma SkuTooShortAvoids() ensures Avoids(CP.SkuTooShort, "qfdi") { }

  /** The sku-length message matches no rule. */
  lemma SkuTooShortIsServerError()
    ensures StatusOf(CP.SkuTooShort) == 500 && !Includes(CP.SkuTooShort, "already exists")
  {
    SkuTooShortAvoids();
    AvoidedRules(CP.SkuTooShort, "qfdi", [2, 4, 5, 6, 15]);
    FirstMatchStatus(CP.SkuTooShort, 5, false);
  }

  lemma PageInvalidAvoids() ensures Avoids(GP.PageInvalid, "qflc") { }

  /** The page message matches no rule. */
  lemma PageInvalidIsServerError()
    ensures StatusOf(GP.PageInvalid) == 500
  {
    PageInvalidAvoids();
    AvoidedRules(GP.PageInvalid, "qflc", [2, 4, 1, 4, 0]);
    FirstMatchStatus(GP.PageInvalid, 5, false);
  }

  lemma LimitInvalidAvoids() ensures Avoids(GP.LimitInvalid, "ro") { }

  /** The limit message matches no rule. */
  lemma LimitInvalidIsServerError()
    ensures StatusOf(GP.LimitInvalid) == 500
  {
    LimitInvalidAvoids();
    AvoidedRules(GP.LimitInvalid, "ro", [0, 1, 2, 9, 4]);
    FirstMatchStatus(GP.LimitInvalid, 5, false);
  }

  lemma LateUniqueAvoids() ensures Avoids(CreatePrefix + "Validation error", "qfyIb") { }

  /** A unique-index rejection from the store, after the use case's own sku
      check passed, matches no rule: it is a 500, not a 409. */
  lemma LateUniqueIsServerError()
    ensures StatusOf(CreatePrefix + "Validation error") == 500
    ensures !Includes(CreatePrefix + "Validation error", "already exists")
  {
    LateUniqueAvoids();
    AvoidedRules(CreatePrefix + "Validation error", "qfyIb", [2, 4, 6, 0, 7]);
    FirstMatchStatus(CreatePrefix + "Validation error", 5, false);
  }

  /** The response of POST /products on a given table. */
  function CreateResponse(rows: map<int, ProductRecord>, nextId: int, clock: nat, d: CP.ProductInput, development: bool)
    : HttpResponse<ProductRecord>
  {
    Served(CreateReply(CP.Outcome(rows, nextId, clock, d)), development)
  }

  /** Missing fields, quantity 0 and price 0 are answered 400 with the
      required-fields message. */
  lemma {:induction false} CreateMissingIsBadRequest(rows: map<int, ProductRecord>, nextId: int, clock: nat,
                                                     d: CP.ProductInput, development: bool)
    requires !CP.Present(d)
    ensures CreateResponse(rows, nextId, clock, d, development).status == 400
    ensures CreateResponse(rows, nextId, clock, d, development).message == CP.Required
  {
    CP.FailuresInOrder(rows, nextId, clock, d);
    RequiredIsBadRequest();
    ForwardedPlain<ProductRecord>(CP.Required, development);
  }

  /** A negative quantity, a negative price and a short sku are answered 500
      "Internal server error". */
  lemma {:induction false} CreateInvalidFieldIsServerError(rows: map<int, ProductRecord>, nextId: int, clock: nat,
                                                           d: CP.ProductInput, development: bool)
    requires CP.Present(d)
    requires d.quantity < 0 || d.price < 0 || |d.sku.value| < SkuMin
    ensures CreateResponse(rows, nextId, clock, d, development).status == 500
    ensures CreateResponse(rows, nextId, clock, d, development).message == InternalError
  {
    CP.FailuresInOrder(rows, nextId, clock, d);
    QuantityInvalidIsServerError();
    PriceInvalidIsServerError();
    SkuTooShortIsServerError();
    var m := CP.InputError(d).value;
    assert m == CP.QuantityInvalid || m == CP.PriceInvalid || m == CP.SkuTooShort;
    ForwardedPlain<ProductRecord>(m, development);
  }

  /** A sku already in the table is answered 409 with the use case's message. */
  lemma {:induction false} CreateDuplicateIsConflict(rows: map<int, ProductRecord>, nextId: int, clock: nat,
                                                     d: CP.ProductInput, development: bool)
    requires CP.InputError(d).None? && CP.SkuInUse(rows, d.sku.value)
    ensures CreateResponse(rows, nextId, clock, d, development) == HttpResponse(409, false, CP.SkuExists, None, None)
  {
    CP.FailuresInOrder(rows, nextId, clock, d);
    SkuExistsIsConflict();
  }

  /** A created product is answered 201 with its row. */
  lemma {:induction false} CreateSuccessIsCreated(rows: map<int, ProductRecord>, nextId: int, clock: nat,
                                                  d: CP.ProductInput, development: bool)
    requires CP.Outcome(rows, nextId, clock, d).Ok?
    ensures CreateResponse(rows, nextId, clock, d, development) ==
            HttpResponse(201, true, Created, Some(CP.Outcome(rows, nextId, clock, d).value), None)
  {
  }

  /** The response of PUT /products/:id/quantity on a given table. */
  function UpdateQuantityResponse(rows: map<int, ProductRecord>, clock: nat, id: int, quantity: int, development: bool)
    : HttpResponse<ProductRecord>
  {
    Served(UpdateQuantityReply(UQ.Outcome(rows, clock, id, quantity)), development)
  }

  /** Id 0 is a 400, a negative quantity a 500, an unknown id a 404 with the
      use case's message, and a stored id with a storable quantity a 200 with
      the updated row. */
  lemma {:induction false} UpdateQuantityRouteStatuses(rows: map<int, ProductRecord>, nextId: int, clock: nat,
                                                       id: int, quantity: int, development: bool)
    requires TableValid(rows, nextId)
    ensures var resp := UpdateQuantityResponse(rows, clock, id, quantity, development);
            && (id == 0 ==> resp.status == 400 && resp.message == UQ.IdRequired)
            && (id != 0 && quantity < 0 ==> resp.status == 500 && resp.message == InternalError)
            && (id != 0 && quantity >= 0 && id !in rows ==> resp == HttpResponse(404, false, UQ.ProductNotFound, None, None))
            && (id != 0 && id in rows && 0 <= quantity <= IntegerMax ==>
                  resp.status == 200 && resp.success && resp.message == QuantityUpdated &&
                  resp.data == Some(rows[id].(quantity := quantity, updatedAt := clock + 1)))
  {
    UQ.FailuresInOrder(rows, clock, id, quantity);
    UQ.OnlyQuantityChanges(rows, nextId, clock, id, quantity);
    if id == 0 {
      IdRequiredIsBadRequest();
      ForwardedPlain<ProductRecord>(UQ.IdRequired, development);
    } else if quantity < 0 {
      QuantityInvalidIsServerError();
      ForwardedPlain<ProductRecord>(UQ.QuantityInvalid, development);
    }
  }

  /** GET /products answers 200 with the requested page, or 500 for a page
      below 1 or a limit outside 1..100. */
  lemma {:induction false} GetRouteStatuses(store: ProductStore, page: Option<int>, limit: Option<int>, development: bool)
    requires store.Valid()
    ensures var p := if page.Some? then page.value else 1;
            var l := if limit.Some? then limit.value else 10;
            var resp := GetProducts(store, page, limit, development);
            && (resp.status == 200 <==> p >= 1 && 1 <= l <= GP.MaxLimit)
            && (resp.status != 200 ==> resp.status == 500 && resp.message == InternalError)
            && (resp.status == 200 ==> resp.message == Retrieved && resp.data.Some? && resp.data.value.page == p)
  {
    var p := if page.Some? then page.value else 1;
    var l := if limit.Some? then limit.value else 10;
    var r := GP.Execute(store, Some(p), Some(l));
    if r.Ok? {
      GP.ReturnsRequestedPage(store, p, l);
    } else {
      PageInvalidIsServerError();
      LimitInvalidIsServerError();
      ForwardedPlain<Page>(r.error.message, development);
    }
  }
}

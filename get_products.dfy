/** The list-products use case: defaults, two range checks, the offset of the
    requested page, and one read of the table. */
module GetProducts {
  import opened Common
  import opened ProductRepository

  const DefaultPage := 1
  const DefaultLimit := 10
  const MaxLimit := 100
  const PageInvalid := "Page must be a positive number"
  const LimitInvalid := "Limit must be between 1 and 100"

  /** `execute({page, limit})`; an absent option takes its default. The table
      is only read. */
  function Execute(store: ProductStore, page: Option<int>, limit: Option<int>): (r: Result<Page>)
    requires store.Valid()
    reads store
    ensures var p := if page.Some? then page.value else DefaultPage;
            var l := if limit.Some? then limit.value else DefaultLimit;
            && (p < 1 ==> r == Fail(Error(PageInvalid)))
            && (p >= 1 && (l < 1 || l > MaxLimit) ==> r == Fail(Error(LimitInvalid)))
            && (r.Ok? <==> p >= 1 && 1 <= l <= MaxLimit)
            && (r.Ok? ==> (p - 1) * l >= 0 && r.value == store.FindAll(Some(l), Some((p - 1) * l)))
  {
    var p := if page.Some? then page.value else DefaultPage;
    var l := if limit.Some? then limit.value else DefaultLimit;
    if p < 1 then Fail(Error(PageInvalid))
    else if l < 1 || l > MaxLimit then Fail(Error(LimitInvalid))
    else
      PageOfPageOffset(p, l);
      Ok(store.FindAll(Some(l), Some((p - 1) * l)))
  }

  /** A listed page reports the page and limit that were asked for, holds at
      most `limit` rows, and is non-empty exactly when the page number is
      within the page count. */
  lemma {:induction false} ReturnsRequestedPage(store: ProductStore, p: int, l: int)
    requires store.Valid()
    requires Execute(store, Some(p), Some(l)).Ok?
    ensures var res := Execute(store, Some(p), Some(l)).value;
            && res.page == p && res.limit == l && res.total == |store.rows|
            && |res.products| <= l <= MaxLimit
            && (|res.products| > 0 <==> p <= res.totalPages)
  {
    PageNonEmptyIffInRange(store, p, l);
  }

  /** The rows of a listed page are the newest-first rows from
      `(page - 1) * limit` on. */
  lemma {:induction false} ReturnsRowsFromOffset(store: ProductStore, p: int, l: int)
    requires store.Valid()
    requires Execute(store, Some(p), Some(l)).Ok?
    ensures (p - 1) * l >= 0
    ensures var res := Execute(store, Some(p), Some(l)).value;
            forall k :: 0 <= k < |res.products| ==> res.products[k] == store.NewestFirst()[(p - 1) * l + k]
  {
  }

  /** With no options the first ten newest rows are listed. */
  lemma {:induction false} DefaultsListFirstTen(store: ProductStore)
    requires store.Valid()
    ensures Execute(store, None, None).Ok?
    ensures Execute(store, None, None).value.page == 1
    ensures |Execute(store, None, None).value.products| == Min(10, |store.rows|)
  {
    var page := store.FindAll(Some(DefaultLimit), Some(0));
    assert Execute(store, None, None) == Ok(page);
    assert |page.products| == Min(DefaultLimit, |store.rows|);
  }
}

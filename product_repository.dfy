/** The product repository over an in-memory `products` table: a map from id to
    row, the ids in insertion order, the auto-increment counter and the store's
    clock. Every write ticks the clock and stamps the rows it touches, so rows
    inserted later carry later creation times and "newest first" is the reverse
    of insertion order. Every failure is rethrown as a new `Error` whose message
    starts with the operation's prefix. */
module ProductRepository {
  import opened Common
  import opened ProductEntity
  import opened ProductModel

  /** What `findAll` returns. */
  datatype Page = Page(products: seq<ProductRecord>, total: nat, page: int, limit: int, totalPages: int)

  const DefaultLimit := 10
  const DefaultOffset := 0
  const NotFound := "Product not found"
  const FindByIdPrefix := "Error finding product by ID: "
  const FindBySkuPrefix := "Error finding product by SKU: "
  const FindAllPrefix := "Error finding products: "
  const CreatePrefix := "Error creating product: "
  const UpdatePrefix := "Error updating product: "
  const UpdateQuantityPrefix := "Error updating product quantity: "
  const DeletePrefix := "Error deleting product: "

  /** `Math.ceil(total / limit)` for a positive limit: never more pages than
      rows. */
  function TotalPages(total: nat, limit: int): (t: nat)
    requires limit >= 1
    ensures t <= total
  {
    PagesAtMostRows(total, limit);
    (total + limit - 1) / limit
  }

  /** `Math.floor(offset / limit) + 1` for a non-negative offset and a positive limit. */
  function PageNumber(offset: nat, limit: int): int
    requires limit >= 1
  {
    offset / limit + 1
  }

  /** With at least one row per page there are no more pages than rows. */
  lemma {:induction false} PagesAtMostRows(total: nat, limit: int)
    requires limit >= 1
    ensures (total + limit - 1) / limit <= total
  {
    var t := (total + limit - 1) / limit;
    var rem := (total + limit - 1) % limit;
    assert total + limit - 1 == t * limit + rem && rem >= 0;
    if t > total {
      MulMonotone(total + 1, t, limit);
      assert (total + 1) * limit == total * limit + limit;
      MulMonotone(1, limit, total);
      assert false;
    }
  }

  /** Multiplying by a positive factor keeps the order of integers. */
  lemma MulMonotone(a: int, b: int, c: int)
    requires a <= b && c >= 0
    ensures a * c <= b * c
  {
    assert b * c - a * c == (b - a) * c;
  }

  /** Euclidean division is determined by quotient and remainder. */
  lemma {:induction false} DivisionUnique(a: int, d: int, q: int, rem: int)
    requires d >= 1 && 0 <= rem < d && a == q * d + rem
    ensures a / d == q
  {
    var k := a / d;
    assert a == k * d + a % d;
    MulStep(k, d);
    MulStep(q, d);
    MulMonotoneWhen(k + 1, q, d);
    MulMonotoneWhen(q + 1, k, d);
  }

  lemma MulStep(k: int, d: int)
    ensures (k + 1) * d == k * d + d
  {
  }

  lemma MulMonotoneWhen(a: int, b: int, c: int)
    ensures a <= b && c >= 0 ==> a * c <= b * c
  {
    if a <= b && c >= 0 {
      MulMonotone(a, b, c);
    }
  }

  /** The offset of page `p` is reported back as page `p`. */
  lemma {:induction false} PageOfPageOffset(p: int, limit: int)
    requires p >= 1 && limit >= 1
    ensures (p - 1) * limit >= 0
    ensures PageNumber((p - 1) * limit, limit) == p
  {
    DivisionUnique((p - 1) * limit, limit, p - 1, 0);
  }

  /** The reported page count is the least number of pages of `limit` rows that
      hold `total` rows. */
  lemma {:induction false} TotalPagesIsCeiling(total: nat, limit: int)
    requires limit >= 1
    ensures TotalPages(total, limit) * limit >= total
    ensures TotalPages(total, limit) >= 1 ==> (TotalPages(total, limit) - 1) * limit < total
    ensures total == 0 <==> TotalPages(total, limit) == 0
  {
    var t := TotalPages(total, limit);
    var rem := (total + limit - 1) % limit;
    assert total + limit - 1 == t * limit + rem;
    if t >= 1 {
      assert (t - 1) * limit == t * limit - limit;
    } else {
      assert t == 0;
    }
  }

  /** Whether a row other than `except` already holds `sku`. */
  predicate SkuTaken(rows: map<int, ProductRecord>, sku: string, except: int) {
    exists id :: id in rows && id != except && rows[id].sku == sku
  }

  /** Why the store refuses to write `row` under its own id, if it does: the
      field validators first, then the unique index on sku. */
  function Rejection(rows: map<int, ProductRecord>, id: int, row: ProductRecord): (m: Option<string>)
    ensures m.None? <==> RowValid(row) && !SkuTaken(rows, row.sku, id)
  {
    var vs := Violations(row);
    if vs != [] then Some("Validation error: " + Join(vs, ",\n"))
    else if SkuTaken(rows, row.sku, id) then Some("Validation error")
    else None
  }

  /** Creation times strictly increase along `ids`. */
  predicate CreatedIncreasing(rows: map<int, ProductRecord>, ids: seq<int>)
    requires forall i :: 0 <= i < |ids| ==> ids[i] in rows
  {
    forall i, j :: 0 <= i < j < |ids| ==> rows[ids[i]].createdAt < rows[ids[j]].createdAt
  }

  /** Removing an id keeps the other ids in creation order, and shortens the
      list by one exactly when the id was in it. */
  lemma {:induction false} WithoutKeepsOrder(rows: map<int, ProductRecord>, s: seq<int>, x: int)
    requires forall i :: 0 <= i < |s| ==> s[i] in rows
    requires CreatedIncreasing(rows, s)
    ensures forall i :: 0 <= i < |Without(s, x)| ==> Without(s, x)[i] in rows
    ensures CreatedIncreasing(rows, Without(s, x))
    ensures x in s ==> |Without(s, x)| == |s| - 1
    ensures x !in s ==> |Without(s, x)| == |s|
  {
    if s != [] {
      var tail := s[1..];
      IncreasingTail(rows, s);
      WithoutKeepsOrder(rows, tail, x);
      var w := Without(tail, x);
      if s[0] != x {
        assert Without(s, x) == [s[0]] + w;
        IncreasingCons(rows, s[0], w);
      } else {
        assert Without(s, x) == w;
      }
    }
  }

  /** The tail of an increasing list is increasing and comes after its head. */
  lemma IncreasingTail(rows: map<int, ProductRecord>, s: seq<int>)
    requires s != [] && forall i :: 0 <= i < |s| ==> s[i] in rows
    requires CreatedIncreasing(rows, s)
    ensures CreatedIncreasing(rows, s[1..])
    ensures forall y :: y in s[1..] ==> rows[s[0]].createdAt < rows[y].createdAt
  {
    var tail := s[1..];
    forall i, j | 0 <= i < j < |tail| ensures rows[tail[i]].createdAt < rows[tail[j]].createdAt {
      assert tail[i] == s[i + 1] && tail[j] == s[j + 1];
    }
    forall y | y in tail ensures rows[s[0]].createdAt < rows[y].createdAt {
      var k :| 0 <= k < |tail| && tail[k] == y;
      assert y == s[k + 1];
    }
  }

  /** A head created before every element of an increasing list keeps it
      increasing. */
  lemma IncreasingCons(rows: map<int, ProductRecord>, h: int, w: seq<int>)
    requires h in rows && forall i :: 0 <= i < |w| ==> w[i] in rows
    requires CreatedIncreasing(rows, w)
    requires forall y :: y in w ==> rows[h].createdAt < rows[y].createdAt
    ensures CreatedIncreasing(rows, [h] + w)
  {
    var r := [h] + w;
    forall i, j | 0 <= i < j < |r| ensures rows[r[i]].createdAt < rows[r[j]].createdAt {
      if i == 0 {
        assert r[j] == w[j - 1];
      } else {
        assert r[i] == w[i - 1] && r[j] == w[j - 1];
      }
    }
  }

  class ProductStore {
    var rows: map<int, ProductRecord>
    /** The ids of the rows, in insertion order. */
    var order: seq<int>
    /** The next value of the auto-increment id. */
    var nextId: int
    /** The store's clock: the time of its latest write. */
    var clock: nat

    ghost predicate Valid()
      reads this
    {
      && TableValid(rows, nextId)
      && |order| == |rows|
      && (forall i :: 0 <= i < |order| ==> order[i] in rows)
      && (forall id :: id in rows ==> id in order)
      && CreatedIncreasing(rows, order)
      && (forall id :: id in rows ==> rows[id].createdAt <= rows[id].updatedAt <= clock)
    }

    /** An empty table. */
    constructor ()
      ensures Valid() && rows == map[] && order == [] && nextId == 1 && clock == 0
    {
      rows := map[];
      order := [];
      nextId := 1;
      clock := 0;
    }

    /** `findById`: null when no row has that id, otherwise that row. */
    function FindById(id: int): (r: Option<ProductRecord>)
      reads this
      ensures r.None? <==> id !in rows
      ensures r.Some? ==> r.value == rows[id]
    {
      if id in rows then Some(rows[id]) else None
    }

    /** The first row along `ids` whose sku is `sku`. */
    function SkuSearch(ids: seq<int>, sku: string): (r: Option<ProductRecord>)
      requires forall i :: 0 <= i < |ids| ==> ids[i] in rows
      reads this
      ensures r.None? <==> forall i :: 0 <= i < |ids| ==> rows[ids[i]].sku != sku
      ensures r.Some? ==> r.value.sku == sku && exists i :: 0 <= i < |ids| && rows[ids[i]] == r.value
    {
      if ids == [] then None
      else if rows[ids[0]].sku == sku then Some(rows[ids[0]])
      else
        var r := SkuSearch(ids[1..], sku);
        assert forall i :: 1 <= i < |ids| ==> ids[i] == ids[1..][i - 1];
        r
    }

    /** `findBySku`: null when no row has that sku, otherwise the one row that does. */
    function FindBySku(sku: string): (r: Option<ProductRecord>)
      requires Valid()
      reads this
      ensures r.None? <==> forall id :: id in rows ==> rows[id].sku != sku
      ensures r.Some? ==> r.value.id.Some? && r.value.id.value in rows &&
                          rows[r.value.id.value] == r.value && r.value.sku == sku
    {
      var r := SkuSearch(order, sku);
      assert TableValid(rows, nextId);
      assert (forall id :: id in rows ==> rows[id].sku != sku) ==> r.None? by {
        if forall id :: id in rows ==> rows[id].sku != sku {
          assert forall i :: 0 <= i < |order| ==> order[i] in rows && rows[order[i]].sku != sku;
        }
      }
      assert r.None? ==> forall id :: id in rows ==> rows[id].sku != sku by {
        if r.None? {
          forall id | id in rows ensures rows[id].sku != sku {
            var i :| 0 <= i < |order| && order[i] == id;
            assert rows[order[i]].sku != sku;
          }
        }
      }
      assert r.Some? ==> r.value.id.Some? && r.value.id.value in rows && rows[r.value.id.value] == r.value by {
        if r.Some? {
          var i :| 0 <= i < |order| && rows[order[i]] == r.value;
          var id := order[i];
          assert id in rows;
          assert 1 <= id < nextId && rows[id].id == Some(id) && RowValid(rows[id]);
        }
      }
      r
    }

    /** The rows named by `ids`, last id first. */
    function RowsReversed(ids: seq<int>): (s: seq<ProductRecord>)
      requires forall i :: 0 <= i < |ids| ==> ids[i] in rows
      reads this
      ensures |s| == |ids|
      ensures forall k :: 0 <= k < |ids| ==> s[k] == rows[ids[|ids| - 1 - k]]
    {
      if ids == [] then []
      else [rows[ids[|ids| - 1]]] + RowsReversed(ids[..|ids| - 1])
    }

    /** All rows, newest first. */
    function NewestFirst(): (s: seq<ProductRecord>)
      requires Valid()
      reads this
      ensures |s| == |rows|
      ensures forall k :: 0 <= k < |s| ==> s[k] == rows[order[|order| - 1 - k]]
    {
      RowsReversed(order)
    }

    /** Newest first holds every row exactly once, in strictly decreasing
        creation time. */
    lemma NewestFirstSortedPermutation()
      requires Valid()
      ensures forall k, l :: 0 <= k < l < |NewestFirst()| ==> NewestFirst()[k].createdAt > NewestFirst()[l].createdAt
      ensures forall id :: id in rows ==> rows[id] in NewestFirst()
      ensures forall k :: 0 <= k < |NewestFirst()| ==> NewestFirst()[k] in rows.Values
    {
      var s := NewestFirst();
      var n := |order|;
      forall k, l | 0 <= k < l < |s| ensures s[k].createdAt > s[l].createdAt {
        assert s[k] == rows[order[n - 1 - k]] && s[l] == rows[order[n - 1 - l]];
      }
      forall id | id in rows ensures rows[id] in s {
        var i :| 0 <= i < n && order[i] == id;
        assert s[n - 1 - i] == rows[id];
      }
    }

    /** `findAll({limit, offset})`: the slice of the newest-first rows that
        starts at `offset` and holds at most `limit` of them, the row count and
        the page arithmetic. */
    function FindAll(limit: Option<int>, offset: Option<int>): (p: Page)
      requires Valid()
      requires limit.Some? ==> limit.value >= 1
      requires offset.Some? ==> offset.value >= 0
      reads this
      ensures var lim := if limit.Some? then limit.value else DefaultLimit;
              var off := if offset.Some? then offset.value else DefaultOffset;
              && p.total == |rows|
              && p.limit == lim
              && p.page == PageNumber(off, lim)
              && p.totalPages == TotalPages(|rows|, lim)
              && |p.products| == Min(lim, if off <= |rows| then |rows| - off else 0)
              && forall k :: 0 <= k < |p.products| ==> p.products[k] == NewestFirst()[off + k]
    {
      var lim := if limit.Some? then limit.value else DefaultLimit;
      var off := if offset.Some? then offset.value else DefaultOffset;
      var all := NewestFirst();
      var lo := Min(off, |all|);
      var hi := Min(off + lim, |all|);
      Page(all[lo..hi], |rows|, PageNumber(off, lim), lim, TotalPages(|rows|, lim))
    }

    /** `create(product)`: validate, then insert one row with a fresh id. */
    method Create(e: Product) returns (r: Result<ProductRecord>)
      requires Valid()
      modifies this
      ensures Valid()
      ensures var row := e.ToJson().(id := Some(old(nextId)), createdAt := old(clock) + 1,
                                     updatedAt := old(clock) + 1);
              && old(nextId) !in old(rows)
              && (Rejection(old(rows), old(nextId), row).None? ==>
                    && r == Ok(row)
                    && rows == old(rows)[old(nextId) := row]
                    && order == old(order) + [old(nextId)]
                    && nextId == old(nextId) + 1 && clock == old(clock) + 1)
              && (Rejection(old(rows), old(nextId), row).Some? ==>
                    && r == Fail(Error(CreatePrefix + Rejection(old(rows), old(nextId), row).value))
                    && unchanged(this))
    {
      var row := e.ToJson().(id := Some(nextId), createdAt := clock + 1, updatedAt := clock + 1);
      var why := Rejection(rows, nextId, row);
      if why.Some? {
        return Fail(Error(CreatePrefix + why.value));
      }
      assert forall i :: 0 <= i < |order| ==> order[i] != nextId;
      rows := rows[nextId := row];
      order := order + [nextId];
      nextId := nextId + 1;
      clock := clock + 1;
      r := Ok(row);
    }

    /** `update(product)`: overwrite the seven writable fields of the row with
        the entity's id; the store refreshes `updatedAt`. */
    method Update(e: Product) returns (r: Result<ProductRecord>)
      requires Valid()
      modifies this
      ensures Valid()
      ensures order == old(order) && nextId == old(nextId)
      ensures (e.id.None? || e.id.value !in old(rows)) ==>
                r == Fail(Error(UpdatePrefix + NotFound)) && unchanged(this)
      ensures e.id.Some? && e.id.value in old(rows) ==>
                var row := old(rows)[e.id.value].(name := e.name, productType := e.productType,
                  sku := e.sku, imageUrl := e.imageUrl, description := e.description,
                  quantity := e.quantity, price := e.price, updatedAt := old(clock) + 1);
                && (Rejection(old(rows), e.id.value, row).None? ==>
                      r == Ok(row) && rows == old(rows)[e.id.value := row] && clock == old(clock) + 1)
                && (Rejection(old(rows), e.id.value, row).Some? ==>
                      r == Fail(Error(UpdatePrefix + Rejection(old(rows), e.id.value, row).value)) && unchanged(this))
    {
      if e.id.None? || e.id.value !in rows {
        return Fail(Error(UpdatePrefix + NotFound));
      }
      var id := e.id.value;
      var row := rows[id].(name := e.name, productType := e.productType, sku := e.sku,
                           imageUrl := e.imageUrl, description := e.description,
                           quantity := e.quantity, price := e.price, updatedAt := clock + 1);
      var why := Rejection(rows, id, row);
      if why.Some? {
        return Fail(Error(UpdatePrefix + why.value));
      }
      rows := rows[id := row];
      clock := clock + 1;
      r := Ok(row);
    }

    /** `updateQuantity(id, quantity)`: change only that row's quantity; the
        store refreshes `updatedAt`. Setting the quantity the row already
        holds changes no field, so nothing is written and `updatedAt` stays. */
    method UpdateQuantity(id: int, quantity: int) returns (r: Result<ProductRecord>)
      requires Valid()
      modifies this
      ensures Valid()
      ensures order == old(order) && nextId == old(nextId)
      ensures id !in old(rows) ==> r == Fail(Error(UpdateQuantityPrefix + NotFound)) && unchanged(this)
      ensures id in old(rows) && quantity == old(rows)[id].quantity ==> r == Ok(old(rows)[id]) && unchanged(this)
      ensures id in old(rows) && quantity != old(rows)[id].quantity ==>
                var row := old(rows)[id].(quantity := quantity, updatedAt := old(clock) + 1);
                && (0 <= quantity <= IntegerMax ==>
                      r == Ok(row) && rows == old(rows)[id := row] && clock == old(clock) + 1)
                && (!(0 <= quantity <= IntegerMax) ==>
                      r == Fail(Error(UpdateQuantityPrefix + Rejection(old(rows), id, row).value)) && unchanged(this))
    {
      if id !in rows {
        return Fail(Error(UpdateQuantityPrefix + NotFound));
      }
      if quantity == rows[id].quantity {
        return Ok(rows[id]);
      }
      var row := rows[id].(quantity := quantity, updatedAt := clock + 1);
      var why := Rejection(rows, id, row);
      if why.Some? {
        return Fail(Error(UpdateQuantityPrefix + why.value));
      }
      rows := rows[id := row];
      clock := clock + 1;
      r := Ok(row);
    }

    /** `delete(id)`: remove exactly that row and answer true. */
    method Delete(id: int) returns (r: Result<bool>)
      requires Valid()
      modifies this
      ensures Valid()
      ensures nextId == old(nextId) && clock == old(clock)
      ensures id !in old(rows) ==> r == Fail(Error(DeletePrefix + NotFound)) && unchanged(this)
      ensures id in old(rows) ==>
                r == Ok(true) && rows == old(rows) - {id} && order == Without(old(order), id)
    {
      if id !in rows {
        return Fail(Error(DeletePrefix + NotFound));
      }
      WithoutKeepsOrder(rows, order, id);
      var rest := rows - {id};
      assert rest.Keys == rows.Keys - {id};
      order := Without(order, id);
      rows := rest;
      r := Ok(true);
    }
  }

  /** With 25 rows and ten per page there are three pages; the third holds five. */
  lemma TwentyFiveRows(store: ProductStore)
    requires store.Valid() && |store.rows| == 25
    ensures store.FindAll(Some(10), Some(0)).totalPages == 3
    ensures |store.FindAll(Some(10), Some(0)).products| == 10
    ensures |store.FindAll(Some(10), Some(20)).products| == 5
    ensures store.FindAll(Some(10), Some(20)).page == 3
  {
  }

  /** A page is non-empty exactly when its number is between 1 and the page
      count; every non-empty page but the last is full. */
  lemma {:induction false} PageNonEmptyIffInRange(store: ProductStore, p: int, limit: int)
    requires store.Valid() && p >= 1 && limit >= 1
    ensures (p - 1) * limit >= 0
    ensures var page := store.FindAll(Some(limit), Some((p - 1) * limit));
            && page.page == p
            && (|page.products| > 0 <==> p <= page.totalPages)
            && (p < page.totalPages ==> |page.products| == limit)
  {
    PageOfPageOffset(p, limit);
    var n := |store.rows|;
    var t := TotalPages(n, limit);
    TotalPagesIsCeiling(n, limit);
    var off := (p - 1) * limit;
    OffsetInRange(n, t, p, limit);
    var page := store.FindAll(Some(limit), Some(off));
    assert |page.products| == Min(limit, if off <= n then n - off else 0);
  }

  /** The arithmetic behind PageNonEmptyIffInRange. */
  lemma OffsetInRange(n: nat, t: nat, p: int, limit: int)
    requires p >= 1 && limit >= 1
    requires t * limit >= n && (t >= 1 ==> (t - 1) * limit < n) && (n == 0 <==> t == 0)
    ensures (p - 1) * limit < n <==> p <= t
    ensures p < t ==> (p - 1) * limit + limit < n
  {
    if p <= t {
      MulMonotone(p - 1, t - 1, limit);
    } else {
      MulMonotone(t, p - 1, limit);
    }
    if p < t {
      MulMonotone(p, t - 1, limit);
      assert (p - 1) * limit + limit == p * limit;
    }
  }
}

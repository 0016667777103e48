/**
 * The four tables of the price store (supermarkets, categories, products,
 * product_info) as maps keyed by their primary keys, and the effect of each
 * SQL statement of the store helpers as a function on those maps.
 * String comparison is exact equality.
 */
module Tables {
  import opened Wrappers
  import opened Common

  datatype CategoryRow = CategoryRow(
    supermarketId: int,
    code: string,
    name: string,
    lastScrapedOn: Option<Date>,
    lastEmptyOn: Option<Date>)

  datatype ProductRow = ProductRow(
    code: string,
    categoryId: Option<int>,
    name: string,
    url: string,
    createdOn: Date)

  datatype InfoRow = InfoRow(
    price: Option<real>,
    discountedPrice: Option<real>,
    rating: Option<real>,
    ratesCount: int,
    unit: Option<string>)

  type CategoryTable = map<int, CategoryRow>
  type ProductTable = map<int, ProductRow>
  /** product_info, keyed by its primary key (product_id, observed_on). */
  type InfoTable = map<(int, Date), InfoRow>

  /** Why a store helper raised. */
  datatype DbError =
    | DuplicateKey       // a PRIMARY KEY collision on INSERT
    | NullSupermarket    // a NULL supermarket_id on INSERT INTO categories
    | SqlSyntax          // `product_code IN ()` for an empty batch
    | MissingIdentifier  // a batch code that resolves to no product_id
    | FutureDate         // a freshness date after today

  // ---------------------------------------------------------------- categories

  /** The UNIQUE (supermarket_id, category_code) key of `categories`. */
  ghost predicate UniqueCategoryKeys(t: CategoryTable)
  {
    forall a, b :: a in t && b in t && a != b ==>
      t[a].supermarketId != t[b].supermarketId || t[a].code != t[b].code
  }

  /** Every id in the table is below the AUTO_INCREMENT counter. */
  ghost predicate BelowCounter<R>(t: map<int, R>, next: int)
  {
    forall id :: id in t ==> id < next
  }

  /** The row has the unique key that `c` carries. */
  predicate SameKey(row: CategoryRow, c: Category)
  {
    c.supermarketId == Some(row.supermarketId) && row.code == c.categoryCode
  }

  /** One row of `INSERT INTO categories ... ON DUPLICATE KEY UPDATE name=VALUES(name)`. */
  function UpsertRow(t: CategoryTable, next: int, c: Category): (CategoryTable, int)
    requires c.supermarketId.Some?
  {
    if exists cid :: cid in t && SameKey(t[cid], c) then
      (map cid | cid in t :: if SameKey(t[cid], c) then t[cid].(name := c.name) else t[cid], next)
    else
      (t[next := CategoryRow(c.supermarketId.value, c.categoryCode, c.name, None, None)], next + 1)
  }

  /** All rows of the statement, in list order. */
  function UpsertRows(t: CategoryTable, next: int, cs: seq<Category>): (CategoryTable, int)
    requires forall i :: 0 <= i < |cs| ==> cs[i].supermarketId.Some?
  {
    if cs == [] then (t, next)
    else
      var prev := UpsertRows(t, next, cs[..|cs| - 1]);
      UpsertRow(prev.0, prev.1, cs[|cs| - 1])
  }

  /** Which freshness column `update_category_date_field` writes. */
  datatype DateField = LastScrapedOn | LastEmptyOn

  function SetDate(row: CategoryRow, field: DateField, date: Date): CategoryRow
  {
    match field
    case LastScrapedOn => row.(lastScrapedOn := Some(date))
    case LastEmptyOn => row.(lastEmptyOn := Some(date))
  }

  /**
   * The WHERE clause of the category picker: a category of supermarket `sm`
   * not scraped in the last 6 days before `today` and not found empty today.
   */
  predicate Eligible(row: CategoryRow, sm: int, today: Date)
  {
    && row.supermarketId == sm
    && (row.lastScrapedOn.None? || row.lastScrapedOn.value < today - 6)
    && (row.lastEmptyOn.None? || row.lastEmptyOn.value < today)
  }

  /** The Category the picker builds from a row (last_empty_on is not selected). */
  function CategoryOfRow(cid: int, row: CategoryRow): Category
  {
    Category(Some(row.supermarketId), Some(cid), row.code, row.name, row.lastScrapedOn)
  }

  // ---------------------------------------------------------------- products

  /** `products JOIN categories USING (category_id) WHERE supermarket_id = sm` keeps this row. */
  predicate InSupermarket(cats: CategoryTable, row: ProductRow, sm: int)
  {
    row.categoryId.Some? && row.categoryId.value in cats && cats[row.categoryId.value].supermarketId == sm
  }

  /** The codes of the products of supermarket `sm` (none when `sm` is NULL). */
  function SupermarketCodes(cats: CategoryTable, prods: ProductTable, sm: Option<int>): (r: set<string>)
    ensures forall code :: code in r <==> exists pid :: Resolves(cats, prods, sm, code, pid)
  {
    var r := set pid | pid in prods && Resolves(cats, prods, sm, prods[pid].code, pid) :: prods[pid].code;
    assert forall code, pid :: Resolves(cats, prods, sm, code, pid) ==> prods[pid].code in r;
    r
  }

  /** `UPDATE products ... WHERE product_code = p.code AND category_id = p.category_id` hits this row (NULL matches nothing). */
  predicate UpdateHits(row: ProductRow, p: Product)
  {
    p.categoryId.Some? && row.categoryId == p.categoryId && row.code == p.productCode
  }

  /** A row after the UPDATE statements for `items`, run in order; they set only name and url. */
  function Refreshed(row: ProductRow, items: seq<Product>): (r: ProductRow)
    ensures r.code == row.code && r.categoryId == row.categoryId && r.createdOn == row.createdOn
  {
    if items == [] then row
    else
      var prev := Refreshed(row, items[..|items| - 1]);
      var p := items[|items| - 1];
      if UpdateHits(prev, p) then prev.(name := p.name, url := p.url) else prev
  }

  function RefreshAll(t: ProductTable, items: seq<Product>): ProductTable
  {
    map pid | pid in t :: Refreshed(t[pid], items)
  }

  /** One more UPDATE statement, applied to the table the earlier ones left. */
  lemma RefreshAllStep(t: ProductTable, items: seq<Product>, p: Product)
    ensures RefreshAll(t, items + [p]) ==
      var u := RefreshAll(t, items);
      map pid | pid in u :: if UpdateHits(u[pid], p) then u[pid].(name := p.name, url := p.url) else u[pid]
  {
    assert (items + [p])[..|items|] == items;
    var u := RefreshAll(t, items);
    var v := map pid | pid in u :: if UpdateHits(u[pid], p) then u[pid].(name := p.name, url := p.url) else u[pid];
    forall pid | pid in t
      ensures RefreshAll(t, items + [p])[pid] == v[pid]
    {
    }
    assert RefreshAll(t, items + [p]).Keys == v.Keys;
  }

  /** No UPDATE statement leaves the table as it is. */
  lemma RefreshAllNone(t: ProductTable)
    ensures RefreshAll(t, []) == t
  {
    forall pid | pid in t
      ensures RefreshAll(t, [])[pid] == t[pid]
    {
    }
    assert RefreshAll(t, []).Keys == t.Keys;
  }

  /** The row inserted for `p` (product_info is excluded from the dump). */
  function NewRow(p: Product): ProductRow
  {
    ProductRow(p.productCode, p.categoryId, p.name, p.url, p.createdOn)
  }

  /**
   * `INSERT INTO products VALUES (...)` for `items` in order: a NULL
   * product_id takes the AUTO_INCREMENT counter, an explicit one raises the
   * counter past it; a primary key collision fails the whole statement.
   */
  function InsertProducts(t: ProductTable, next: int, items: seq<Product>): Result<(ProductTable, int), DbError>
  {
    if items == [] then Success((t, next))
    else
      match InsertProducts(t, next, items[..|items| - 1])
      case Failure(e) => Failure(e)
      case Success(prev) =>
        var p := items[|items| - 1];
        var id := if p.productId.Some? then p.productId.value else prev.1;
        if id in prev.0 then Failure(DuplicateKey)
        else Success((prev.0[id := NewRow(p)], if id + 1 > prev.1 then id + 1 else prev.1))
  }

  // ---------------------------------------------------------------- product_info

  predicate AllIdentified(xs: seq<ProductInfo>)
  {
    forall i :: 0 <= i < |xs| ==> xs[i].productId.Some?
  }

  function InfoKey(x: ProductInfo): (int, Date)
    requires x.productId.Some?
  {
    (x.productId.value, x.observedOn)
  }

  function InfoRowOf(x: ProductInfo): InfoRow
  {
    InfoRow(x.price, x.discountedPrice, x.rating, x.ratesCount, x.unit)
  }

  /** `INSERT IGNORE INTO product_info` for `xs` in order: a row whose key is taken is dropped. */
  function InsertIgnore(t: InfoTable, xs: seq<ProductInfo>): InfoTable
    requires AllIdentified(xs)
  {
    if xs == [] then t
    else
      var prev := InsertIgnore(t, xs[..|xs| - 1]);
      var x := xs[|xs| - 1];
      if InfoKey(x) in prev then prev else prev[InfoKey(x) := InfoRowOf(x)]
  }

  // ---------------------------------------------------------------- facts about INSERT IGNORE

  /** After INSERT IGNORE the table holds exactly the old keys and the keys of the batch. */
  lemma {:induction false} InsertIgnoreKeys(t: InfoTable, xs: seq<ProductInfo>)
    requires AllIdentified(xs)
    ensures forall k :: k in InsertIgnore(t, xs) <==>
      k in t || exists i :: 0 <= i < |xs| && InfoKey(xs[i]) == k
  {
    if xs != [] {
      var n := |xs| - 1;
      InsertIgnoreKeys(t, xs[..n]);
      forall k ensures k in InsertIgnore(t, xs) <==> k in t || exists i :: 0 <= i < |xs| && InfoKey(xs[i]) == k {
        if exists i :: 0 <= i < |xs| && InfoKey(xs[i]) == k {
          var i :| 0 <= i < |xs| && InfoKey(xs[i]) == k;
          if i < n {
            assert InfoKey(xs[..n][i]) == k;
          }
        }
        if exists i :: 0 <= i < n && InfoKey(xs[..n][i]) == k {
          var i :| 0 <= i < n && InfoKey(xs[..n][i]) == k;
          assert InfoKey(xs[i]) == k;
        }
      }
    }
  }

  /** A stored observation is never overwritten: INSERT IGNORE keeps the first write. */
  lemma {:induction false} InsertIgnoreKeeps(t: InfoTable, xs: seq<ProductInfo>)
    requires AllIdentified(xs)
    ensures forall k :: k in t ==> k in InsertIgnore(t, xs) && InsertIgnore(t, xs)[k] == t[k]
  {
    if xs != [] {
      InsertIgnoreKeeps(t, xs[..|xs| - 1]);
    }
  }

  /** Within one batch the first observation for a key is the one stored. */
  lemma {:induction false} InsertIgnoreFirstWins(t: InfoTable, xs: seq<ProductInfo>, i: nat)
    requires AllIdentified(xs) && i < |xs|
    requires InfoKey(xs[i]) !in t
    requires forall j :: 0 <= j < i ==> InfoKey(xs[j]) != InfoKey(xs[i])
    ensures InfoKey(xs[i]) in InsertIgnore(t, xs)
    ensures InsertIgnore(t, xs)[InfoKey(xs[i])] == InfoRowOf(xs[i])
  {
    var n := |xs| - 1;
    var prefix := xs[..n];
    if i < n {
      assert prefix[i] == xs[i];
      InsertIgnoreFirstWins(t, prefix, i);
    } else {
      InsertIgnoreKeys(t, prefix);
      forall j | 0 <= j < n ensures InfoKey(prefix[j]) != InfoKey(xs[i]) {
        assert prefix[j] == xs[j];
      }
    }
  }

  /** Replaying the same observations is a no-op. */
  lemma InsertIgnoreIdempotent(t: InfoTable, xs: seq<ProductInfo>)
    requires AllIdentified(xs)
    ensures InsertIgnore(InsertIgnore(t, xs), xs) == InsertIgnore(t, xs)
  {
    var u := InsertIgnore(t, xs);
    InsertIgnoreKeys(t, xs);
    InsertIgnoreKeys(u, xs);
    InsertIgnoreKeeps(u, xs);
  }

  // ---------------------------------------------------------------- facts about the UPDATE

  /** A row that no statement hits is untouched. */
  lemma {:induction false} RefreshedNoHit(row: ProductRow, items: seq<Product>)
    requires forall j :: 0 <= j < |items| ==> !UpdateHits(row, items[j])
    ensures Refreshed(row, items) == row
  {
    if items != [] {
      var n := |items| - 1;
      var prefix := items[..n];
      assert forall j :: 0 <= j < n ==> prefix[j] == items[j];
      RefreshedNoHit(row, prefix);
    }
  }

  /** A row that some statement hits carries the name and url of the LAST statement that hits it. */
  lemma {:induction false} RefreshedLastHit(row: ProductRow, items: seq<Product>, j: nat)
    requires j < |items| && UpdateHits(row, items[j])
    requires forall k :: j < k < |items| ==> !UpdateHits(row, items[k])
    ensures Refreshed(row, items) == row.(name := items[j].name, url := items[j].url)
  {
    var n := |items| - 1;
    var prefix := items[..n];
    assert forall k :: 0 <= k < n ==> prefix[k] == items[k];
    if j < n {
      RefreshedLastHit(row, prefix, j);
    }
  }

  /** Running the same UPDATE statements twice leaves the table as running them once. */
  lemma RefreshIdempotent(t: ProductTable, items: seq<Product>)
    ensures RefreshAll(RefreshAll(t, items), items) == RefreshAll(t, items)
  {
    forall pid | pid in t
      ensures Refreshed(Refreshed(t[pid], items), items) == Refreshed(t[pid], items)
    {
      var row := t[pid];
      var once := Refreshed(row, items);
      assert forall j :: 0 <= j < |items| ==> (UpdateHits(once, items[j]) <==> UpdateHits(row, items[j]));
      if exists j :: 0 <= j < |items| && UpdateHits(row, items[j]) {
        var j := LastHit(row, items);
        RefreshedLastHit(row, items, j);
        RefreshedLastHit(once, items, j);
      } else {
        RefreshedNoHit(row, items);
        RefreshedNoHit(once, items);
      }
    }
  }

  /** The position of the last statement that hits `row`. */
  ghost function LastHit(row: ProductRow, items: seq<Product>): (j: nat)
    requires exists j :: 0 <= j < |items| && UpdateHits(row, items[j])
    ensures j < |items| && UpdateHits(row, items[j])
    ensures forall k :: j < k < |items| ==> !UpdateHits(row, items[k])
  {
    if UpdateHits(row, items[|items| - 1]) then |items| - 1
    else LastHit(row, items[..|items| - 1])
  }

  // ---------------------------------------------------------------- facts about INSERT INTO products

  /** A successful insert keeps the counter above every id. */
  lemma {:induction false} InsertProductsCounter(t: ProductTable, next: int, items: seq<Product>)
    requires BelowCounter(t, next)
    ensures InsertProducts(t, next, items).Success? ==>
      var r := InsertProducts(t, next, items).value;
      BelowCounter(r.0, r.1) && next <= r.1
  {
    if items != [] {
      InsertProductsCounter(t, next, items[..|items| - 1]);
    }
  }

  /** With no explicit product_id in the batch the insert always succeeds. */
  lemma {:induction false} InsertProductsSucceeds(t: ProductTable, next: int, items: seq<Product>)
    requires BelowCounter(t, next)
    requires forall i :: 0 <= i < |items| ==> items[i].productId.None?
    ensures InsertProducts(t, next, items).Success?
  {
    if items != [] {
      var prefix := items[..|items| - 1];
      assert forall i :: 0 <= i < |prefix| ==> prefix[i] == items[i];
      InsertProductsSucceeds(t, next, prefix);
      InsertProductsCounter(t, next, prefix);
    }
  }

  /** A successful insert keeps every stored row and adds exactly one row per item. */
  lemma {:induction false} InsertProductsKeeps(t: ProductTable, next: int, items: seq<Product>)
    ensures InsertProducts(t, next, items).Success? ==>
      var r := InsertProducts(t, next, items).value;
      && |r.0| == |t| + |items|
      && forall pid :: pid in t ==> pid in r.0 && r.0[pid] == t[pid]
  {
    if items != [] {
      InsertProductsKeeps(t, next, items[..|items| - 1]);
    }
  }

  /** The last item of a successful insert lands on an id that was free before it. */
  lemma InsertProductsLast(t: ProductTable, next: int, items: seq<Product>, r: (ProductTable, int))
    requires items != [] && InsertProducts(t, next, items) == Success(r)
    ensures InsertProducts(t, next, items[..|items| - 1]).Success?
    ensures var prev := InsertProducts(t, next, items[..|items| - 1]).value;
      exists id :: id !in prev.0 && r.0 == prev.0[id := NewRow(items[|items| - 1])]
  {
  }

  /** Every row a successful insert adds holds the fields of some item. */
  lemma {:induction false} InsertProductsFromItems(t: ProductTable, next: int, items: seq<Product>, r: (ProductTable, int))
    requires InsertProducts(t, next, items) == Success(r)
    ensures forall pid :: pid in r.0 && pid !in t ==> exists i :: 0 <= i < |items| && r.0[pid] == NewRow(items[i])
  {
    if items != [] {
      var n := |items| - 1;
      var prefix := items[..n];
      InsertProductsLast(t, next, items, r);
      var prev := InsertProducts(t, next, prefix).value;
      InsertProductsFromItems(t, next, prefix, prev);
      var id :| id !in prev.0 && r.0 == prev.0[id := NewRow(items[n])];
      forall pid | pid in r.0 && pid !in t
        ensures exists i :: 0 <= i < |items| && r.0[pid] == NewRow(items[i])
      {
        if pid != id {
          var i :| 0 <= i < n && prev.0[pid] == NewRow(prefix[i]);
          assert prefix[i] == items[i];
        } else {
          assert r.0[pid] == NewRow(items[n]);
        }
      }
    }
  }

  /** Every item of a successful insert has a new row holding its fields. */
  lemma {:induction false} InsertProductsEveryItem(t: ProductTable, next: int, items: seq<Product>, r: (ProductTable, int))
    requires InsertProducts(t, next, items) == Success(r)
    ensures forall i :: 0 <= i < |items| ==> exists pid :: pid in r.0 && pid !in t && r.0[pid] == NewRow(items[i])
  {
    if items != [] {
      var n := |items| - 1;
      var prefix := items[..n];
      InsertProductsLast(t, next, items, r);
      var prev := InsertProducts(t, next, prefix).value;
      InsertProductsEveryItem(t, next, prefix, prev);
      var id :| id !in prev.0 && r.0 == prev.0[id := NewRow(items[n])];
      forall i | 0 <= i < |items|
        ensures exists pid :: pid in r.0 && pid !in t && r.0[pid] == NewRow(items[i])
      {
        if i < n {
          assert prefix[i] == items[i];
          var pid :| pid in prev.0 && pid !in t && prev.0[pid] == NewRow(prefix[i]);
          assert pid != id && r.0[pid] == NewRow(items[i]);
        } else {
          assert id in r.0 && r.0[id] == NewRow(items[i]);
          InsertProductsKeeps(t, next, prefix);
        }
      }
    }
  }

  // ---------------------------------------------------------------- facts about the category upsert

  /** Two listed categories name the same unique key. */
  predicate SameListedKey(c: Category, d: Category)
  {
    c.supermarketId == d.supermarketId && c.categoryCode == d.categoryCode
  }

  /** One row of the upsert: the matching row gets the new name, or a fresh row with null dates is added. */
  lemma UpsertRowStep(t: CategoryTable, next: int, c: Category)
    requires c.supermarketId.Some? && UniqueCategoryKeys(t) && BelowCounter(t, next)
    ensures var r := UpsertRow(t, next, c);
      && UniqueCategoryKeys(r.0) && BelowCounter(r.0, r.1) && next <= r.1
      && (forall cid :: cid in t ==>
            (cid in r.0 && r.0[cid] == (if SameKey(t[cid], c) then t[cid].(name := c.name) else t[cid])))
      && (forall cid :: cid in r.0 && cid !in t ==>
            cid == next && r.0[cid] == CategoryRow(c.supermarketId.value, c.categoryCode, c.name, None, None))
      && (exists cid :: cid in r.0 && SameKey(r.0[cid], c) && r.0[cid].name == c.name)
  {
    var r := UpsertRow(t, next, c);
    if exists cid :: cid in t && SameKey(t[cid], c) {
      var cid :| cid in t && SameKey(t[cid], c);
      assert r.0[cid] == t[cid].(name := c.name);
    } else {
      assert next !in t;
      assert r.0[next] == CategoryRow(c.supermarketId.value, c.categoryCode, c.name, None, None);
    }
  }

  /**
   * A stored row keeps its id, key and both dates (only its name can
   * change) and is untouched when its key is not listed; a new row has a
   * fresh id, null dates and a listed key.
   */
  lemma UpsertRowsKeep(t: CategoryTable, next: int, cs: seq<Category>)
    requires forall i :: 0 <= i < |cs| ==> cs[i].supermarketId.Some?
    requires UniqueCategoryKeys(t) && BelowCounter(t, next)
    ensures var r := UpsertRows(t, next, cs);
      && (forall cid :: cid in t ==> cid in r.0 && r.0[cid] == t[cid].(name := r.0[cid].name))
      && (forall cid :: cid in t && (forall i :: 0 <= i < |cs| ==> !SameKey(t[cid], cs[i])) ==> r.0[cid] == t[cid])
      && (forall cid :: cid in r.0 && cid !in t ==>
            next <= cid && r.0[cid].lastScrapedOn.None? && r.0[cid].lastEmptyOn.None?
            && exists i :: 0 <= i < |cs| && SameKey(r.0[cid], cs[i]))
  {
    UpsertRowsKeepOld(t, next, cs);
    UpsertRowsKeepNew(t, next, cs);
  }

  /** A stored row keeps everything but its name, and its name too when its key is not listed. */
  lemma {:induction false} UpsertRowsKeepOld(t: CategoryTable, next: int, cs: seq<Category>)
    requires forall i :: 0 <= i < |cs| ==> cs[i].supermarketId.Some?
    requires UniqueCategoryKeys(t) && BelowCounter(t, next)
    ensures var r := UpsertRows(t, next, cs);
      && (forall cid :: cid in t ==> cid in r.0 && r.0[cid] == t[cid].(name := r.0[cid].name))
      && (forall cid :: cid in t && (forall i :: 0 <= i < |cs| ==> !SameKey(t[cid], cs[i])) ==> r.0[cid] == t[cid])
  {
    if cs != [] {
      var n := |cs| - 1;
      var prefix := cs[..n];
      assert forall i :: 0 <= i < n ==> prefix[i] == cs[i];
      UpsertRowsKeepOld(t, next, prefix);
      UpsertRowsInvariant(t, next, prefix);
      var prev := UpsertRows(t, next, prefix);
      UpsertRowStep(prev.0, prev.1, cs[n]);
    }
  }

  /** A new row has a fresh id, null dates and a listed key. */
  lemma {:induction false} UpsertRowsKeepNew(t: CategoryTable, next: int, cs: seq<Category>)
    requires forall i :: 0 <= i < |cs| ==> cs[i].supermarketId.Some?
    requires UniqueCategoryKeys(t) && BelowCounter(t, next)
    ensures var r := UpsertRows(t, next, cs);
      forall cid :: cid in r.0 && cid !in t ==>
        next <= cid && r.0[cid].lastScrapedOn.None? && r.0[cid].lastEmptyOn.None?
        && exists i :: 0 <= i < |cs| && SameKey(r.0[cid], cs[i])
  {
    if cs != [] {
      var n := |cs| - 1;
      var prefix := cs[..n];
      assert forall i :: 0 <= i < n ==> prefix[i] == cs[i];
      UpsertRowsKeepNew(t, next, prefix);
      UpsertRowsKeepOld(t, next, prefix);
      UpsertRowsInvariant(t, next, prefix);
      var prev := UpsertRows(t, next, prefix);
      UpsertRowStep(prev.0, prev.1, cs[n]);
      var r := UpsertRows(t, next, cs);
      forall cid | cid in r.0 && cid !in t
        ensures exists i :: 0 <= i < |cs| && SameKey(r.0[cid], cs[i])
      {
        if cid in prev.0 {
          var i :| 0 <= i < n && SameKey(prev.0[cid], prefix[i]);
          assert SameKey(r.0[cid], cs[i]);
        } else {
          assert SameKey(r.0[cid], cs[n]);
        }
      }
    }
  }

  /** The upsert keeps the unique key and the counter invariant. */
  lemma {:induction false} UpsertRowsInvariant(t: CategoryTable, next: int, cs: seq<Category>)
    requires forall i :: 0 <= i < |cs| ==> cs[i].supermarketId.Some?
    requires UniqueCategoryKeys(t) && BelowCounter(t, next)
    ensures UniqueCategoryKeys(UpsertRows(t, next, cs).0)
    ensures BelowCounter(UpsertRows(t, next, cs).0, UpsertRows(t, next, cs).1)
    ensures next <= UpsertRows(t, next, cs).1
  {
    if cs != [] {
      var prefix := cs[..|cs| - 1];
      UpsertRowsInvariant(t, next, prefix);
      var prev := UpsertRows(t, next, prefix);
      UpsertRowStep(prev.0, prev.1, cs[|cs| - 1]);
    }
  }

  /** Every listed key has a row afterwards, named after the LAST listed category with that key. */
  lemma {:induction false} UpsertRowsNames(t: CategoryTable, next: int, cs: seq<Category>, i: nat, r: (CategoryTable, int))
    requires forall k :: 0 <= k < |cs| ==> cs[k].supermarketId.Some?
    requires UniqueCategoryKeys(t) && BelowCounter(t, next)
    requires r == UpsertRows(t, next, cs)
    requires i < |cs| && forall j :: i < j < |cs| ==> !SameListedKey(cs[i], cs[j])
    ensures exists cid :: cid in r.0 && SameKey(r.0[cid], cs[i]) && r.0[cid].name == cs[i].name
  {
    var n := |cs| - 1;
    var prefix := cs[..n];
    UpsertRowsInvariant(t, next, prefix);
    var prev := UpsertRows(t, next, prefix);
    assert r == UpsertRow(prev.0, prev.1, cs[n]);
    UpsertRowStep(prev.0, prev.1, cs[n]);
    if i < n {
      assert forall k :: 0 <= k < n ==> prefix[k] == cs[k];
      UpsertRowsNames(t, next, prefix, i, prev);
      var cid :| cid in prev.0 && SameKey(prev.0[cid], cs[i]) && prev.0[cid].name == cs[i].name;
      assert !SameListedKey(cs[i], cs[n]);
      assert cid in r.0 && r.0[cid] == prev.0[cid];
    }
  }

  /** Once a prefix of the batch collides, the whole INSERT fails. */
  lemma {:induction false} InsertProductsFailurePersists(t: ProductTable, next: int, items: seq<Product>, k: nat)
    requires k <= |items| && InsertProducts(t, next, items[..k]).Failure?
    ensures InsertProducts(t, next, items).Failure?
  {
    if k < |items| {
      var n := |items| - 1;
      assert items[..n][..k] == items[..k];
      InsertProductsFailurePersists(t, next, items[..n], k);
    } else {
      assert items[..k] == items;
    }
  }

  // ---------------------------------------------------------------- the batch upsert

  /** The batch items whose code is (`known`) or is not (`!known`) among `codes`, in batch order. */
  function Select(items: seq<Product>, codes: set<string>, known: bool): (r: seq<Product>)
    ensures forall x :: x in r <==> x in items && (x.productCode in codes) == known
  {
    if items == [] then []
    else
      var last := items[|items| - 1];
      Select(items[..|items| - 1], codes, known) + (if (last.productCode in codes) == known then [last] else [])
  }

  /** Stamping one more product of the batch. */
  lemma StampedAppend(items: seq<Product>, i: nat, categoryId: Option<int>)
    requires i < |items|
    ensures Stamped(items[..i + 1], categoryId) == Stamped(items[..i], categoryId) + [items[i].(categoryId := categoryId)]
  {
    var a, b := Stamped(items[..i + 1], categoryId), Stamped(items[..i], categoryId) + [items[i].(categoryId := categoryId)];
    assert |a| == |b|;
    forall k | 0 <= k < |a| ensures a[k] == b[k] {
      if k < i {
        assert items[..i + 1][k] == items[..i][k];
      }
    }
  }

  /** Selecting from a batch one product longer. */
  lemma SelectAppend(items: seq<Product>, x: Product, codes: set<string>, known: bool)
    ensures Select(items + [x], codes, known) == Select(items, codes, known) + (if (x.productCode in codes) == known then [x] else [])
  {
    assert (items + [x])[..|items|] == items;
  }

  /** The two selections split the batch: every item goes to exactly one of them, as often as it occurs. */
  lemma {:induction false} SelectPartition(items: seq<Product>, codes: set<string>)
    ensures multiset(Select(items, codes, true)) + multiset(Select(items, codes, false)) == multiset(items)
  {
    if items != [] {
      var n := |items| - 1;
      SelectPartition(items[..n], codes);
      assert items == items[..n] + [items[n]];
    }
  }

  /** The batch codes. */
  function Codes(items: seq<Product>): set<string>
  {
    set i | 0 <= i < |items| :: items[i].productCode
  }

  /** `pid` is a product of supermarket `sm` with code `code`: a row `fetch_product_codes_map` may report. */
  predicate Resolves(cats: CategoryTable, prods: ProductTable, sm: Option<int>, code: string, pid: int)
  {
    sm.Some? && pid in prods && prods[pid].code == code && InSupermarket(cats, prods[pid], sm.value)
  }

  /**
   * `product_list.update_product_ids(codes_map)`: every product and its
   * observation take the id of its code; a code without an id is a
   * MissingIdentifier failure.
   */
  function AssignIds(items: seq<Product>, ids: map<string, int>): (r: Result<seq<Product>, DbError>)
    ensures r.Success? <==> Codes(items) <= ids.Keys
    ensures r.Success? ==> |r.value| == |items| && forall i :: 0 <= i < |items| ==>
      r.value[i] == items[i].(productId := Some(ids[items[i].productCode]),
                              info := items[i].info.(productId := Some(ids[items[i].productCode])))
  {
    if forall i :: 0 <= i < |items| ==> items[i].productCode in ids then
      Success(seq(|items|, i requires 0 <= i < |items| =>
        var id := ids[items[i].productCode];
        items[i].(productId := Some(id), info := items[i].info.(productId := Some(id)))))
    else
      Failure(MissingIdentifier)
  }

  /** The observations of a batch whose items carry their ids. */
  function Observations(items: seq<Product>): (r: seq<ProductInfo>)
    ensures |r| == |items| && forall i :: 0 <= i < |items| ==> r[i] == items[i].info
  {
    seq(|items|, i requires 0 <= i < |items| => items[i].info)
  }

  // ---------------------------------------------------------------- the batch, put together

  /** The batch after `product.category_id = category.category_id` on every item. */
  function Stamped(items: seq<Product>, categoryId: Option<int>): (r: seq<Product>)
    ensures |r| == |items| && forall i :: 0 <= i < |items| ==> r[i] == items[i].(categoryId := categoryId)
  {
    seq(|items|, i requires 0 <= i < |items| => items[i].(categoryId := categoryId))
  }

  /** Stamping keeps every product's code. */
  lemma StampedCodes(items: seq<Product>, categoryId: Option<int>)
    ensures Codes(Stamped(items, categoryId)) == Codes(items)
  {
    var r := Stamped(items, categoryId);
    assert forall code :: code in Codes(r) ==> code in Codes(items) by {
      forall code | code in Codes(r) ensures code in Codes(items) {
        var i :| 0 <= i < |r| && r[i].productCode == code;
        assert items[i].productCode == code;
      }
    }
    assert forall code :: code in Codes(items) ==> code in Codes(r) by {
      forall code | code in Codes(items) ensures code in Codes(r) {
        var i :| 0 <= i < |items| && items[i].productCode == code;
        assert r[i].productCode == code;
      }
    }
  }

  /**
   * Running only the statements of the known codes does to a row with a
   * known code what running the whole batch would.
   */
  lemma {:induction false} RefreshedSelect(row: ProductRow, items: seq<Product>, codes: set<string>)
    requires row.code in codes
    ensures Refreshed(row, Select(items, codes, true)) == Refreshed(row, items)
  {
    if items != [] {
      var n := |items| - 1;
      var prefix := items[..n];
      var last := items[n];
      RefreshedSelect(row, prefix, codes);
      var sel := Select(prefix, codes, true);
      if last.productCode in codes {
        assert Select(items, codes, true) == sel + [last];
        assert (sel + [last])[..|sel|] == sel;
      } else {
        assert Select(items, codes, true) == sel;
        assert !UpdateHits(Refreshed(row, prefix), last);
      }
    }
  }

  /** A row whose code no statement of the selection carries is untouched by it. */
  lemma {:induction false} RefreshedUnselected(row: ProductRow, items: seq<Product>, codes: set<string>)
    requires row.code !in codes
    ensures Refreshed(row, Select(items, codes, true)) == row
  {
    var sel := Select(items, codes, true);
    forall j | 0 <= j < |sel| ensures !UpdateHits(row, sel[j]) {
      assert sel[j] in sel;
    }
    RefreshedNoHit(row, sel);
  }

  /** A batch stamped with one category leaves the rows of every other category (and all rows, for a NULL one) untouched. */
  lemma RefreshedOtherCategory(row: ProductRow, items: seq<Product>, categoryId: Option<int>)
    requires categoryId.None? || row.categoryId != categoryId
    ensures Refreshed(row, Stamped(items, categoryId)) == row
  {
    RefreshedNoHit(row, Stamped(items, categoryId));
  }

  /** The UPDATE changes no code and no category, so it changes no supermarket's codes. */
  lemma RefreshAllResolves(cats: CategoryTable, t: ProductTable, items: seq<Product>, sm: Option<int>)
    ensures forall code, pid :: Resolves(cats, t, sm, code, pid) <==> Resolves(cats, RefreshAll(t, items), sm, code, pid)
  {
  }

  /**
   * After the UPDATE of the known codes and the INSERT of the others, every
   * code of a batch filed under a category of supermarket `sm` belongs to
   * `sm`: `fetch_product_codes_map` finds all of them.
   */
  lemma BatchResolves(cats: CategoryTable, t: ProductTable, next: int, items: seq<Product>, cid: int, sm: int, r: (ProductTable, int))
    requires cid in cats && cats[cid].supermarketId == sm
    requires var batch := Stamped(items, Some(cid));
      var known := SupermarketCodes(cats, t, Some(sm));
      InsertProducts(RefreshAll(t, Select(batch, known, true)), next, Select(batch, known, false)) == Success(r)
    ensures Codes(items) <= SupermarketCodes(cats, r.0, Some(sm))
  {
    var batch := Stamped(items, Some(cid));
    var known := SupermarketCodes(cats, t, Some(sm));
    var u := RefreshAll(t, Select(batch, known, true));
    var toInsert := Select(batch, known, false);
    InsertProductsKeeps(u, next, toInsert);
    InsertProductsEveryItem(u, next, toInsert, r);
    forall code | code in Codes(items) ensures exists pid :: Resolves(cats, r.0, Some(sm), code, pid) {
      var k :| 0 <= k < |items| && items[k].productCode == code;
      var x := batch[k];
      assert x.productCode == code && x.categoryId == Some(cid);
      if code in known {
        var pid :| Resolves(cats, t, Some(sm), code, pid);
        RefreshAllResolves(cats, t, Select(batch, known, true), Some(sm));
        assert Resolves(cats, u, Some(sm), code, pid);
        assert Resolves(cats, r.0, Some(sm), code, pid);
      } else {
        assert x in toInsert;
        var i :| 0 <= i < |toInsert| && toInsert[i] == x;
        var pid :| pid in r.0 && pid !in u && r.0[pid] == NewRow(toInsert[i]);
        assert Resolves(cats, r.0, Some(sm), code, pid);
      }
    }
  }

  /** The UPDATE of the known codes refreshes exactly the stored rows with a known code, as the whole batch would. */
  lemma BatchRefreshRows(t: ProductTable, items: seq<Product>, categoryId: Option<int>, known: set<string>)
    ensures var u := RefreshAll(t, Select(Stamped(items, categoryId), known, true));
      forall pid :: pid in t ==> (pid in u && u[pid] ==
        if t[pid].code in known then Refreshed(t[pid], Stamped(items, categoryId)) else t[pid])
    ensures RefreshAll(t, Select(Stamped(items, categoryId), known, true)).Keys == t.Keys
  {
    var batch := Stamped(items, categoryId);
    forall pid | pid in t
      ensures Refreshed(t[pid], Select(batch, known, true)) ==
        if t[pid].code in known then Refreshed(t[pid], batch) else t[pid]
    {
      if t[pid].code in known {
        RefreshedSelect(t[pid], batch, known);
      } else {
        RefreshedUnselected(t[pid], batch, known);
      }
    }
  }

  /** The INSERT of the unknown codes adds one row per such item, filed under the batch's category. */
  lemma BatchNewRows(u: ProductTable, next: int, items: seq<Product>, categoryId: Option<int>, known: set<string>, r: (ProductTable, int))
    requires InsertProducts(u, next, Select(Stamped(items, categoryId), known, false)) == Success(r)
    ensures forall pid :: pid in u ==> pid in r.0 && r.0[pid] == u[pid]
    ensures forall pid :: pid in r.0 && pid !in u ==>
      exists i :: (0 <= i < |items| && items[i].productCode !in known
        && r.0[pid] == NewRow(items[i].(categoryId := categoryId)))
  {
    var batch := Stamped(items, categoryId);
    var toInsert := Select(batch, known, false);
    InsertProductsKeeps(u, next, toInsert);
    InsertProductsFromItems(u, next, toInsert, r);
    forall pid | pid in r.0 && pid !in u
      ensures exists i :: (0 <= i < |items| && items[i].productCode !in known
        && r.0[pid] == NewRow(items[i].(categoryId := categoryId)))
    {
      var j :| 0 <= j < |toInsert| && r.0[pid] == NewRow(toInsert[j]);
      assert toInsert[j] in batch;
      var i :| 0 <= i < |batch| && batch[i] == toInsert[j];
      assert items[i].productCode !in known;
    }
  }

  /**
   * Every item whose code is not `known` has a row of its own among the
   * rows of `t` that `t0` lacks, and there are exactly as many such rows as
   * such items (duplicates included).
   */
  ghost predicate EveryNewItemStored(t0: ProductTable, t: ProductTable, items: seq<Product>, categoryId: Option<int>, known: set<string>)
  {
    && (forall i :: 0 <= i < |items| && items[i].productCode !in known ==>
          exists pid :: pid in t && pid !in t0 && t[pid] == NewRow(items[i].(categoryId := categoryId)))
    && |t| == |t0| + |Select(Stamped(items, categoryId), known, false)|
  }

  /** The INSERT of the unknown codes, after an UPDATE that kept the ids, stores every unknown item. */
  lemma BatchNewRowsComplete(t0: ProductTable, u: ProductTable, next: int, items: seq<Product>, categoryId: Option<int>,
                             known: set<string>, r: (ProductTable, int))
    requires u.Keys == t0.Keys
    requires InsertProducts(u, next, Select(Stamped(items, categoryId), known, false)) == Success(r)
    ensures EveryNewItemStored(t0, r.0, items, categoryId, known)
  {
    var batch := Stamped(items, categoryId);
    var toInsert := Select(batch, known, false);
    InsertProductsKeeps(u, next, toInsert);
    InsertProductsEveryItem(u, next, toInsert, r);
    assert |u| == |t0| by {
      assert |u| == |u.Keys| && |t0| == |t0.Keys|;
    }
    forall i | 0 <= i < |items| && items[i].productCode !in known
      ensures exists pid :: pid in r.0 && pid !in t0 && r.0[pid] == NewRow(items[i].(categoryId := categoryId))
    {
      assert batch[i] in batch && batch[i] == items[i].(categoryId := categoryId);
      assert batch[i] in toInsert;
      var j :| 0 <= j < |toInsert| && toInsert[j] == batch[i];
    }
  }

  /**
   * `t` is `t0` after the INSERT IGNORE of the batch's observations, each
   * under the id its code has in `ids`: every item's observation is stored
   * under that id.
   */
  ghost predicate BatchObserved(t0: InfoTable, t: InfoTable, items: seq<Product>, categoryId: Option<int>, ids: map<string, int>)
  {
    && AssignIds(Stamped(items, categoryId), ids).Success?
    && t == InsertIgnore(t0, Observations(AssignIds(Stamped(items, categoryId), ids).value))
    && forall i :: 0 <= i < |items| && items[i].productCode in ids ==>
      (ids[items[i].productCode], items[i].info.observedOn) in t
  }

  /**
   * The observations of a batch whose codes all have ids are all stored
   * once the INSERT IGNORE ran, each under the id of its code, and the rows
   * stored before are kept.
   */
  lemma ObservationsStored(t: InfoTable, items: seq<Product>, ids: map<string, int>)
    requires Codes(items) <= ids.Keys
    ensures AllIdentified(Observations(AssignIds(items, ids).value))
    ensures var u := InsertIgnore(t, Observations(AssignIds(items, ids).value));
      && (forall i :: 0 <= i < |items| ==> (ids[items[i].productCode], items[i].info.observedOn) in u)
      && (forall k :: k in t ==> k in u && u[k] == t[k])
  {
    var xs := Observations(AssignIds(items, ids).value);
    InsertIgnoreKeys(t, xs);
    InsertIgnoreKeeps(t, xs);
    forall i | 0 <= i < |items|
      ensures (ids[items[i].productCode], items[i].info.observedOn) in InsertIgnore(t, xs)
    {
      assert InfoKey(xs[i]) == (ids[items[i].productCode], items[i].info.observedOn);
    }
  }
}

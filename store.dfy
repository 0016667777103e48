/**
 * The MySQL helpers of the price store, over an in-memory copy of its four
 * tables. Each helper commits on its own, so a helper that fails leaves
 * the effects of the helpers before it in place; "today" is a parameter.
 */
module Db {
  import opened Wrappers
  import opened Common
  import opened Tables

  datatype Outcome = Pass | Fail(error: DbError)

  /** Splits a batch into the products to update and to insert (the loop of `upsert_product_list`). */
  method SplitBatch(items: seq<Product>, existing: set<string>, categoryId: Option<int>)
    returns (batch: seq<Product>, toUpdate: seq<Product>, toInsert: seq<Product>)
    ensures batch == Stamped(items, categoryId)
    ensures toUpdate == Select(batch, existing, true)
    ensures toInsert == Select(batch, existing, false)
  {
    batch, toUpdate, toInsert := [], [], [];
    var i := 0;
    while i < |items|
      invariant 0 <= i <= |items|
      invariant batch == Stamped(items[..i], categoryId)
      invariant toUpdate == Select(batch, existing, true)
      invariant toInsert == Select(batch, existing, false)
    {
      var product := items[i].(categoryId := categoryId);
      StampedAppend(items, i, categoryId);
      SelectAppend(batch, product, existing, true);
      SelectAppend(batch, product, existing, false);
      batch := batch + [product];
      if product.productCode in existing {
        toUpdate := toUpdate + [product];
      } else {
        toInsert := toInsert + [product];
      }
      i := i + 1;
    }
    assert items[..|items|] == items;
  }

  class Store {
    /** supermarkets: supermarket_id -> name. */
    var supermarkets: map<int, string>
    var categories: CategoryTable
    var products: ProductTable
    var productInfo: InfoTable
    /** The AUTO_INCREMENT counters of categories and products. */
    var nextCategoryId: int
    var nextProductId: int

    ghost predicate Valid()
      reads this
    {
      && UniqueCategoryKeys(categories)
      && BelowCounter(categories, nextCategoryId)
      && BelowCounter(products, nextProductId)
    }

    constructor (supermarkets: map<int, string>)
      ensures Valid()
      ensures this.supermarkets == supermarkets
      ensures categories == map[] && products == map[] && productInfo == map[]
    {
      this.supermarkets := supermarkets;
      categories, products, productInfo := map[], map[], map[];
      nextCategoryId, nextProductId := 1, 1;
    }

    /** `fetch_supermarket_by_id` */
    function FetchSupermarketById(id: int): (r: Option<Supermarket>)
      reads this
      ensures r.Some? <==> id in supermarkets
      ensures r.Some? ==> r.value.supermarketId == id && r.value.name == supermarkets[id]
    {
      if id in supermarkets then Some(Supermarket(id, supermarkets[id])) else None
    }

    /** `fetch_supermarket_by_name`: some supermarket with that name, found again by its id. */
    method FetchSupermarketByName(name: string) returns (r: Option<Supermarket>)
      ensures r.None? <==> forall id :: id in supermarkets ==> supermarkets[id] != name
      ensures r.Some? ==> r.value.name == name && FetchSupermarketById(r.value.supermarketId) == r
    {
      if id :| id in supermarkets && supermarkets[id] == name {
        r := Some(Supermarket(id, name));
      } else {
        r := None;
      }
    }

    /**
     * `fetch_category_to_scrape`: ORDER BY RAND() LIMIT 1 picks any eligible
     * category of the supermarket; None exactly when there is none.
     */
    method FetchCategoryToScrape(supermarket: Supermarket, today: Date) returns (r: Option<Category>)
      ensures r.None? <==>
        forall cid :: cid in categories ==> !Eligible(categories[cid], supermarket.supermarketId, today)
      ensures r.Some? ==> exists cid :: (cid in categories
        && Eligible(categories[cid], supermarket.supermarketId, today)
        && r.value == CategoryOfRow(cid, categories[cid]))
    {
      if cid :| cid in categories && Eligible(categories[cid], supermarket.supermarketId, today) {
        r := Some(CategoryOfRow(cid, categories[cid]));
      } else {
        r := None;
      }
    }

    /** `fetch_products_codes`: the codes of all products of the category's supermarket. */
    function FetchProductsCodes(category: Category): (r: set<string>)
      reads this
      ensures forall code :: code in r <==>
        exists pid :: Resolves(categories, products, category.supermarketId, code, pid)
    {
      SupermarketCodes(categories, products, category.supermarketId)
    }

    /**
     * `upsert_categories`: an unseen (supermarket_id, category_code) gets a
     * new row with null dates; a known one only gets the new name.
     */
    method UpsertCategories(cats: seq<Category>) returns (r: Outcome)
      requires Valid()
      modifies this
      ensures Valid()
      ensures r.Fail? <==> exists i :: 0 <= i < |cats| && cats[i].supermarketId.None?
      ensures r.Fail? ==> r.error == NullSupermarket && categories == old(categories) && nextCategoryId == old(nextCategoryId)
      ensures r.Pass? ==> (categories, nextCategoryId) == UpsertRows(old(categories), old(nextCategoryId), cats)
      ensures supermarkets == old(supermarkets) && products == old(products) && productInfo == old(productInfo)
    {
      if exists i :: 0 <= i < |cats| && cats[i].supermarketId.None? {
        return Fail(NullSupermarket);
      }
      var i := 0;
      while i < |cats|
        invariant 0 <= i <= |cats|
        invariant (categories, nextCategoryId) == UpsertRows(old(categories), old(nextCategoryId), cats[..i])
        invariant Valid()
        invariant supermarkets == old(supermarkets) && products == old(products) && productInfo == old(productInfo)
      {
        assert cats[..i + 1][..i] == cats[..i];
        UpsertRowStep(categories, nextCategoryId, cats[i]);
        var c := cats[i];
        if exists cid :: cid in categories && SameKey(categories[cid], c) {
          categories := map cid | cid in categories ::
            if SameKey(categories[cid], c) then categories[cid].(name := c.name) else categories[cid];
        } else {
          categories := categories[nextCategoryId := CategoryRow(c.supermarketId.value, c.categoryCode, c.name, None, None)];
          nextCategoryId := nextCategoryId + 1;
        }
        i := i + 1;
      }
      assert cats[..i] == cats;
      r := Pass;
    }

    /**
     * `update_existent_products`: for each item in order, UPDATE name and url
     * of the rows with its product_code AND its category_id.
     */
    method UpdateExistentProducts(items: seq<Product>)
      requires Valid()
      modifies this
      ensures Valid()
      ensures products == RefreshAll(old(products), items)
      ensures supermarkets == old(supermarkets) && categories == old(categories) && productInfo == old(productInfo)
      ensures nextCategoryId == old(nextCategoryId) && nextProductId == old(nextProductId)
    {
      RefreshAllNone(products);
      var i := 0;
      while i < |items|
        invariant 0 <= i <= |items|
        invariant products == RefreshAll(old(products), items[..i])
        invariant supermarkets == old(supermarkets) && categories == old(categories) && productInfo == old(productInfo)
        invariant nextCategoryId == old(nextCategoryId) && nextProductId == old(nextProductId)
      {
        assert items[..i + 1] == items[..i] + [items[i]];
        RefreshAllStep(old(products), items[..i], items[i]);
        var p := items[i];
        products := map pid | pid in products ::
          if UpdateHits(products[pid], p) then products[pid].(name := p.name, url := p.url) else products[pid];
        i := i + 1;
      }
      assert items[..i] == items;
    }

    /**
     * `insert_new_products`: one row per item; a NULL product_id takes the
     * AUTO_INCREMENT counter; a key collision fails the statement and
     * nothing is inserted.
     */
    method InsertNewProducts(items: seq<Product>) returns (r: Outcome)
      requires Valid()
      modifies this
      ensures Valid()
      ensures r.Pass? <==> InsertProducts(old(products), old(nextProductId), items).Success?
      ensures r.Pass? ==> (products, nextProductId) == InsertProducts(old(products), old(nextProductId), items).value
      ensures r.Fail? ==> r.error == DuplicateKey && products == old(products) && nextProductId == old(nextProductId)
      ensures supermarkets == old(supermarkets) && categories == old(categories) && productInfo == old(productInfo)
      ensures nextCategoryId == old(nextCategoryId)
    {
      var t, next := products, nextProductId;
      var i := 0;
      while i < |items|
        invariant 0 <= i <= |items|
        invariant InsertProducts(products, nextProductId, items[..i]) == Success((t, next))
      {
        assert items[..i + 1][..i] == items[..i];
        var p := items[i];
        var id := if p.productId.Some? then p.productId.value else next;
        if id in t {
          InsertProductsFailurePersists(products, nextProductId, items, i + 1);
          return Fail(DuplicateKey);
        }
        t := t[id := NewRow(p)];
        next := if id + 1 > next then id + 1 else next;
        i := i + 1;
      }
      assert items[..i] == items;
      InsertProductsCounter(products, nextProductId, items);
      products, nextProductId := t, next;
      r := Pass;
    }

    /**
     * `insert_product_infos`: INSERT IGNORE, so an observation whose
     * (product_id, observed_on) is already stored is dropped.
     */
    method InsertProductInfos(infos: seq<ProductInfo>)
      requires AllIdentified(infos)
      modifies this
      ensures productInfo == InsertIgnore(old(productInfo), infos)
      ensures supermarkets == old(supermarkets) && categories == old(categories) && products == old(products)
      ensures nextCategoryId == old(nextCategoryId) && nextProductId == old(nextProductId)
    {
      var i := 0;
      while i < |infos|
        invariant 0 <= i <= |infos|
        invariant productInfo == InsertIgnore(old(productInfo), infos[..i])
        invariant supermarkets == old(supermarkets) && categories == old(categories) && products == old(products)
        invariant nextCategoryId == old(nextCategoryId) && nextProductId == old(nextProductId)
      {
        assert infos[..i + 1][..i] == infos[..i];
        var x := infos[i];
        if InfoKey(x) !in productInfo {
          productInfo := productInfo[InfoKey(x) := InfoRowOf(x)];
        }
        i := i + 1;
      }
      assert infos[..i] == infos;
    }

    /**
     * `fetch_product_codes_map`: each batch code that a product of the
     * category's supermarket carries, mapped to such a product's id (which
     * one, when several share the code, is up to the database). An empty
     * batch produces `IN ()`, a syntax error.
     */
    method FetchProductCodesMap(category: Category, items: seq<Product>) returns (r: Result<map<string, int>, DbError>)
      ensures r.Failure? <==> items == []
      ensures r.Failure? ==> r.error == SqlSyntax
      ensures r.Success? ==> r.value.Keys == Codes(items) * SupermarketCodes(categories, products, category.supermarketId)
      ensures r.Success? ==> forall code :: code in r.value ==>
        Resolves(categories, products, category.supermarketId, code, r.value[code])
    {
      if items == [] {
        return Failure(SqlSyntax);
      }
      var wanted := Codes(items) * SupermarketCodes(categories, products, category.supermarketId);
      var todo := wanted;
      var m: map<string, int> := map[];
      while todo != {}
        invariant todo <= wanted
        invariant m.Keys == wanted - todo
        invariant forall code :: code in m ==> Resolves(categories, products, category.supermarketId, code, m[code])
        decreases |todo|
      {
        var code :| code in todo;
        var pid :| Resolves(categories, products, category.supermarketId, code, pid);
        m := m[code := pid];
        todo := todo - {code};
      }
      r := Success(m);
    }

    /**
     * `update_category_date_field`: a date after today raises and changes
     * nothing; otherwise only the named field of the row with the
     * category's id is set.
     */
    method UpdateCategoryDateField(category: Category, date: Date, field: DateField, today: Date) returns (r: Outcome)
      requires Valid()
      modifies this
      ensures Valid()
      ensures r.Fail? <==> date > today
      ensures r.Fail? ==> r.error == FutureDate && categories == old(categories)
      ensures r.Pass? ==> (categories ==
        if category.categoryId.Some? && category.categoryId.value in old(categories)
        then old(categories)[category.categoryId.value := SetDate(old(categories)[category.categoryId.value], field, date)]
        else old(categories))
      ensures supermarkets == old(supermarkets) && products == old(products) && productInfo == old(productInfo)
      ensures nextCategoryId == old(nextCategoryId) && nextProductId == old(nextProductId)
    {
      if today - date < 0 {
        return Fail(FutureDate);
      }
      if category.categoryId.Some? && category.categoryId.value in categories {
        var cid := category.categoryId.value;
        categories := categories[cid := SetDate(categories[cid], field, date)];
      }
      r := Pass;
    }

    /**
     * The first half of `upsert_product_list`: files the batch under the
     * category, refreshes the stored products whose code the supermarket
     * already has and inserts the others.
     */
    method StoreProducts(items: seq<Product>, category: Category) returns (batch: seq<Product>, inserted: Outcome)
      requires Valid()
      modifies this
      ensures Valid()
      ensures supermarkets == old(supermarkets) && categories == old(categories) && nextCategoryId == old(nextCategoryId)
      ensures productInfo == old(productInfo)
      ensures batch == Stamped(items, category.categoryId)
      // a stored product keeps its id; only those with a code the supermarket had see the batch's name and url
      ensures forall pid :: pid in old(products) ==> (pid in products && products[pid] ==
        if old(products)[pid].code in SupermarketCodes(old(categories), old(products), category.supermarketId)
        then Refreshed(old(products)[pid], batch)
        else old(products)[pid])
      // a new product is an item whose code the supermarket did not have, filed under the category
      ensures forall pid :: pid in products && pid !in old(products) ==>
        exists i :: (0 <= i < |items|
          && items[i].productCode !in SupermarketCodes(old(categories), old(products), category.supermarketId)
          && products[pid] == NewRow(items[i].(categoryId := category.categoryId)))
      // and each such item has a new row of its own
      ensures inserted.Pass? ==> EveryNewItemStored(old(products), products, items, category.categoryId,
        SupermarketCodes(old(categories), old(products), category.supermarketId))
      ensures inserted.Fail? ==> inserted.error == DuplicateKey
      // without explicit ids the insert goes through, and then every code belongs to the category's supermarket
      ensures (forall i :: 0 <= i < |items| ==> items[i].productId.None?) ==> inserted.Pass?
      ensures inserted.Pass? && category.supermarketId.Some? && category.categoryId.Some?
        && category.categoryId.value in categories
        && categories[category.categoryId.value].supermarketId == category.supermarketId.value
        ==> Codes(items) <= SupermarketCodes(categories, products, category.supermarketId)
    {
      var known := FetchProductsCodes(category);
      var toUpdate, toInsert;
      batch, toUpdate, toInsert := SplitBatch(items, known, category.categoryId);
      ghost var t0, next0 := products, nextProductId;

      UpdateExistentProducts(toUpdate);
      BatchRefreshRows(t0, items, category.categoryId, known);
      ghost var t1 := products;
      if forall i :: 0 <= i < |items| ==> items[i].productId.None? {
        forall j | 0 <= j < |toInsert| ensures toInsert[j].productId.None? {
          assert toInsert[j] in batch;
        }
        InsertProductsSucceeds(t1, next0, toInsert);
      }
      inserted := InsertNewProducts(toInsert);
      if inserted.Fail? {
        return;
      }
      BatchNewRows(t1, next0, items, category.categoryId, known, (products, nextProductId));
      BatchNewRowsComplete(t0, t1, next0, items, category.categoryId, known, (products, nextProductId));
      if category.supermarketId.Some? && category.categoryId.Some?
        && category.categoryId.value in categories
        && categories[category.categoryId.value].supermarketId == category.supermarketId.value
      {
        BatchResolves(categories, t0, next0, items, category.categoryId.value, category.supermarketId.value, (products, nextProductId));
      }
    }

    /**
     * `upsert_product_list`: files the batch under the category, refreshes
     * the products whose code the supermarket already has, inserts the
     * others, gives every item the id its code now has and stores one
     * observation per item (dropped when that product already has one for
     * the day). Returns the observation date of the first item. Each step
     * commits on its own: a failing step keeps what the earlier ones did.
     */
    method UpsertProductList(items: seq<Product>, category: Category) returns (r: Result<Date, DbError>, ghost ids: map<string, int>)
      requires Valid()
      modifies this
      ensures Valid()
      ensures supermarkets == old(supermarkets) && categories == old(categories) && nextCategoryId == old(nextCategoryId)
      ensures items == [] ==> r == Failure(SqlSyntax)
      ensures r.Success? ==> items != [] && r.value == items[0].info.observedOn
      // a stored product keeps its id; only those with a code the supermarket had see the batch's name and url
      ensures forall pid :: pid in old(products) ==> (pid in products && products[pid] ==
        if old(products)[pid].code in SupermarketCodes(old(categories), old(products), category.supermarketId)
        then Refreshed(old(products)[pid], Stamped(items, category.categoryId))
        else old(products)[pid])
      // a new product is an item whose code the supermarket did not have, filed under the category
      ensures forall pid :: pid in products && pid !in old(products) ==>
        exists i :: (0 <= i < |items|
          && items[i].productCode !in SupermarketCodes(old(categories), old(products), category.supermarketId)
          && products[pid] == NewRow(items[i].(categoryId := category.categoryId)))
      // on success each item whose code the supermarket did not have has a new row of its own: one row per such item
      ensures r.Success? ==> EveryNewItemStored(old(products), products, items, category.categoryId,
        SupermarketCodes(old(categories), old(products), category.supermarketId))
      // observations are never overwritten
      ensures forall k :: k in old(productInfo) ==> k in productInfo && productInfo[k] == old(productInfo)[k]
      ensures r.Failure? ==> productInfo == old(productInfo)
      // on success every code has the id of one of the supermarket's products, and every item an observation under it
      ensures r.Success? ==>
        && ids.Keys == Codes(items)
        && (forall code :: code in ids ==> Resolves(categories, products, category.supermarketId, code, ids[code]))
        && BatchObserved(old(productInfo), productInfo, items, category.categoryId, ids)
      // a non-empty batch without explicit ids, for a category of its supermarket, always goes through
      ensures items != [] && category.supermarketId.Some? && category.categoryId.Some?
        && category.categoryId.value in categories
        && categories[category.categoryId.value].supermarketId == category.supermarketId.value
        && (forall i :: 0 <= i < |items| ==> items[i].productId.None?)
        ==> r.Success?
    {
      ids := map[];
      var batch, inserted := StoreProducts(items, category);
      if inserted.Fail? {
        return Failure(inserted.error), ids;
      }
      StampedCodes(items, category.categoryId);
      var codes := FetchProductCodesMap(category, batch);
      if codes.Failure? {
        return Failure(codes.error), ids;
      }
      var codeMap := codes.value;
      ids := codeMap;
      var withIds := AssignIds(batch, codeMap);
      if withIds.Failure? {
        return Failure(withIds.error), ids;
      }
      ObservationsStored(old(productInfo), batch, codeMap);
      InsertProductInfos(Observations(withIds.value));
      r := Success(withIds.value[0].info.observedOn);
    }
  }
}

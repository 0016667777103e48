/**
 * The Pyaterochka product scraper: turns the products of one category, as
 * the store's catalogue endpoint returns them, into products with their
 * observation of the day. Prices are read with the parser's default unit;
 * the unit is the product's own clarification of its package.
 */
module PyaterochkaScraper {
  import opened Wrappers
  import opened Json
  import opened Text
  import opened Common

  /** The product page prefix; the page is `<prefix><code>`. */
  const UrlPrefix: string := "https://5ka.ru/product/"

  /** `record['rating']`, when it is a dictionary. */
  datatype Rating = Rating(ratingAverage: Field<real>, ratesCount: Field<int>)

  /** One product record: the keys the scraper reads, and `record['prices']`. */
  datatype Record = Record(
    plu: int,
    name: string,
    prices: map<string, Json>,
    rating: Field<Rating>,
    propertyClarification: Option<string>)

  /** `rating_info.get('rating_average')`: null and absent both give no rating. */
  function AverageOf(rating: Field<Rating>): (r: Option<real>)
    ensures r.Some? <==> rating.Present? && rating.value.ratingAverage.Present?
    ensures r.Some? ==> r.value == rating.value.ratingAverage.value
  {
    if rating.Present? then FieldValue(rating.value.ratingAverage) else None
  }

  /** `rating_info.get('rates_count') or 0`: a missing or null count is zero. */
  function RatesOf(rating: Field<Rating>): (n: int)
    ensures n != 0 ==> rating.Present? && rating.value.ratesCount == Present(n)
    ensures rating.Present? && rating.value.ratesCount.Present? ==> n == rating.value.ratesCount.value
  {
    if rating.Present? && rating.value.ratesCount.Present? then rating.value.ratesCount.value else 0
  }

  /** The product built from one record. */
  function ProductOf(rec: Record, category: Category, date: Date, parsePrice: PriceParser): (p: Product)
    ensures p.productCode == IntToString(rec.plu)
    ensures p.url == UrlPrefix + p.productCode
    ensures p.name == rec.name && p.categoryId == category.categoryId
    ensures p.productId == None && p.createdOn == date
    ensures p.info.productId == None && p.info.observedOn == date
    ensures p.info.price == parsePrice(rec.prices, "regular", Roubles)
    ensures p.info.discountedPrice == parsePrice(rec.prices, "discount", Roubles)
    ensures p.info.unit == rec.propertyClarification
    ensures p.info.rating == AverageOf(rec.rating) && p.info.ratesCount == RatesOf(rec.rating)
  {
    var code := IntToString(rec.plu);
    Product(None, code, category.categoryId, rec.name, UrlPrefix + code, date,
      ProductInfo(None, date, parsePrice(rec.prices, "regular", Roubles), parsePrice(rec.prices, "discount", Roubles),
        AverageOf(rec.rating), RatesOf(rec.rating), rec.propertyClarification))
  }

  /** The products of `records`, in order. */
  function Products(records: seq<Record>, category: Category, date: Date, parsePrice: PriceParser): seq<Product>
  {
    if records == [] then []
    else
      Products(records[..|records| - 1], category, date, parsePrice)
      + [ProductOf(records[|records| - 1], category, date, parsePrice)]
  }

  /** `parse_data(request_data, category)` */
  method ParseData(request: RequestData<Record>, category: Category, parsePrice: PriceParser) returns (items: seq<Product>)
    ensures items == Products(request.products, category, request.date, parsePrice)
  {
    var records := request.products;
    items := [];
    var i := 0;
    while i < |records|
      invariant 0 <= i <= |records|
      invariant items == Products(records[..i], category, request.date, parsePrice)
    {
      assert records[..i + 1][..i] == records[..i];
      var record := records[i];
      var code := IntToString(record.plu);
      var info := ProductInfo(None, request.date, parsePrice(record.prices, "regular", Roubles),
        parsePrice(record.prices, "discount", Roubles), AverageOf(record.rating), RatesOf(record.rating),
        record.propertyClarification);
      var product := Product(None, code, category.categoryId, record.name, UrlPrefix + code, request.date, info);
      items := items + [product];
      i := i + 1;
    }
    assert records[..|records|] == records;
  }

  /** Exactly one product per record, in the records' order. */
  lemma {:induction false} ProductsIndex(records: seq<Record>, category: Category, date: Date, parsePrice: PriceParser)
    ensures var r := Products(records, category, date, parsePrice);
      |r| == |records| && forall i :: 0 <= i < |records| ==> r[i] == ProductOf(records[i], category, date, parsePrice)
  {
    if records != [] {
      var init := records[..|records| - 1];
      ProductsIndex(init, category, date, parsePrice);
      var r := Products(records, category, date, parsePrice);
      assert r == Products(init, category, date, parsePrice) + [ProductOf(records[|records| - 1], category, date, parsePrice)];
      forall i | 0 <= i < |records| - 1 ensures r[i] == ProductOf(records[i], category, date, parsePrice) {
        assert init[i] == records[i];
      }
    }
  }

  /** The parsed batch is what the store expects: no ids, the category's id, the request's day. */
  lemma ProductsReady(records: seq<Record>, category: Category, date: Date, parsePrice: PriceParser)
    ensures ReadyBatch(Products(records, category, date, parsePrice), category, date)
  {
    ProductsIndex(records, category, date, parsePrice);
  }

  /** A product page address names the product's code, and the code its PLU. */
  lemma UrlNamesProduct(rec: Record, category: Category, date: Date, parsePrice: PriceParser)
    ensures var p := ProductOf(rec, category, date, parsePrice);
      && StartsWith(p.url, UrlPrefix)
      && PyInt(p.productCode) == Some(rec.plu)
      && PyInt(p.url[|UrlPrefix|..]) == Some(rec.plu)
  {
    var p := ProductOf(rec, category, date, parsePrice);
    IntRoundTrip(rec.plu);
    assert p.url[..|UrlPrefix|] == UrlPrefix;
    assert p.url[|UrlPrefix|..] == p.productCode;
  }

  /** Records with distinct PLUs give products with distinct codes and distinct pages. */
  lemma ProductsDistinct(records: seq<Record>, category: Category, date: Date, parsePrice: PriceParser)
    requires forall a, b :: 0 <= a < b < |records| ==> records[a].plu != records[b].plu
    ensures var r := Products(records, category, date, parsePrice);
      forall a, b :: 0 <= a < b < |r| ==> r[a].productCode != r[b].productCode && r[a].url != r[b].url
  {
    ProductsIndex(records, category, date, parsePrice);
    var r := Products(records, category, date, parsePrice);
    forall a, b | 0 <= a < b < |r| ensures r[a].productCode != r[b].productCode && r[a].url != r[b].url {
      var x, y := r[a], r[b];
      if x.productCode == y.productCode {
        IntToStringInjective(records[a].plu, records[b].plu);
      }
      assert x.url[|UrlPrefix|..] == x.productCode;
      assert y.url[|UrlPrefix|..] == y.productCode;
    }
  }
}

/**
 * The Magnit product scraper: turns the goods of one category, as the
 * search endpoint returns them, into products with their observation of
 * the day. A product on promotion has its old price as the price and the
 * current price as the discounted one.
 */
module MagnitScraper {
  import opened Wrappers
  import opened Json
  import opened Text
  import opened Common

  /** The product page prefix. */
  const UrlPrefix: string := "https://magnit.ru/product/"

  /** The shop the product pages are opened for. */
  const UrlSuffix: string := "?shopCode=703059"

  /** `record['ratings']`, when it is a dictionary. */
  datatype Ratings = Ratings(rating: Field<real>, scoresCount: Field<int>)

  /** `record['promotion']`: the flag and the dictionary the old price is read from. */
  datatype Promotion = Promotion(isPromotion: Json, fields: map<string, Json>)

  /**
   * One goods record: the keys the scraper reads (`storeCode` is read and
   * not used), and the record itself, from which the price is read.
   */
  datatype Goods = Goods(
    id: int,
    storeCode: Json,
    name: string,
    ratings: Field<Ratings>,
    promotion: Promotion,
    fields: map<string, Json>)

  /** `rating_info.get('rating') or None`: a zero rating is no rating. */
  function RatingOf(ratings: Field<Ratings>): (r: Option<real>)
    ensures r.Some? <==> ratings.Present? && ratings.value.rating.Present? && ratings.value.rating.value != 0.0
    ensures r.Some? ==> r.value == ratings.value.rating.value
  {
    if ratings.Present? && ratings.value.rating.Present? && ratings.value.rating.value != 0.0
    then Some(ratings.value.rating.value)
    else None
  }

  /** `rating_info.get('scoresCount') or 0`: a missing or null count is zero. */
  function ScoresOf(ratings: Field<Ratings>): (n: int)
    ensures n != 0 ==> ratings.Present? && ratings.value.scoresCount == Present(n)
    ensures ratings.Present? && ratings.value.scoresCount.Present? ==> n == ratings.value.scoresCount.value
  {
    if ratings.Present? && ratings.value.scoresCount.Present? then ratings.value.scoresCount.value else 0
  }

  /** The price and the discounted price of a record, both read in kopecks. */
  function Prices(g: Goods, parsePrice: PriceParser): (r: (Option<real>, Option<real>))
    ensures Truthy(g.promotion.isPromotion) ==>
      r == (parsePrice(g.promotion.fields, "oldPrice", Kopecks), parsePrice(g.fields, "price", Kopecks))
    ensures !Truthy(g.promotion.isPromotion) ==> r == (parsePrice(g.fields, "price", Kopecks), None)
  {
    if Truthy(g.promotion.isPromotion) then
      (parsePrice(g.promotion.fields, "oldPrice", Kopecks), parsePrice(g.fields, "price", Kopecks))
    else (parsePrice(g.fields, "price", Kopecks), None)
  }

  /** The product built from one record. */
  function ProductOf(g: Goods, category: Category, date: Date, parsePrice: PriceParser): (p: Product)
    ensures p.productCode == IntToString(g.id)
    ensures p.url == UrlPrefix + p.productCode + UrlSuffix
    ensures p.name == g.name && p.categoryId == category.categoryId
    ensures p.productId == None && p.createdOn == date
    ensures p.info.productId == None && p.info.observedOn == date && p.info.unit == None
    ensures (p.info.price, p.info.discountedPrice) == Prices(g, parsePrice)
    ensures p.info.rating == RatingOf(g.ratings) && p.info.ratesCount == ScoresOf(g.ratings)
  {
    var code := IntToString(g.id);
    var (price, discounted) := Prices(g, parsePrice);
    Product(None, code, category.categoryId, g.name, UrlPrefix + code + UrlSuffix, date,
      ProductInfo(None, date, price, discounted, RatingOf(g.ratings), ScoresOf(g.ratings), None))
  }

  /** The products of `records`, in order. */
  function Products(records: seq<Goods>, category: Category, date: Date, parsePrice: PriceParser): seq<Product>
  {
    if records == [] then []
    else
      Products(records[..|records| - 1], category, date, parsePrice)
      + [ProductOf(records[|records| - 1], category, date, parsePrice)]
  }

  /** `parse_data(request_data, category)` */
  method ParseData(request: RequestData<Goods>, category: Category, parsePrice: PriceParser) returns (items: seq<Product>)
    ensures items == Products(request.products, category, request.date, parsePrice)
  {
    var records := request.products;
    items := [];
    var i := 0;
    while i < |records|
      invariant 0 <= i <= |records|
      invariant items == Products(records[..i], category, request.date, parsePrice)
    {
      assert records[..i + 1][..i] == records[..i];
      var record := records[i];
      var code := IntToString(record.id);
      var price, discounted;
      if Truthy(record.promotion.isPromotion) {
        price := parsePrice(record.promotion.fields, "oldPrice", Kopecks);
        discounted := parsePrice(record.fields, "price", Kopecks);
      } else {
        price := parsePrice(record.fields, "price", Kopecks);
        discounted := None;
      }
      var info := ProductInfo(None, request.date, price, discounted, RatingOf(record.ratings), ScoresOf(record.ratings), None);
      var product := Product(None, code, category.categoryId, record.name, UrlPrefix + code + UrlSuffix, request.date, info);
      items := items + [product];
      i := i + 1;
    }
    assert records[..|records|] == records;
  }

  /** Exactly one product per record, in the records' order. */
  lemma {:induction false} ProductsIndex(records: seq<Goods>, category: Category, date: Date, parsePrice: PriceParser)
    ensures var r := Products(records, category, date, parsePrice);
      |r| == |records| && forall i :: 0 <= i < |records| ==> r[i] == ProductOf(records[i], category, date, parsePrice)
  {
    if records != [] {
      var init := records[..|records| - 1];
      ProductsIndex(init, category, date, parsePrice);
      var r := Products(records, category, date, parsePrice);
      assert r == Products(init, category, date, parsePrice) + [ProductOf(records[|records| - 1], category, date, parsePrice)];
      forall i | 0 <= i < |records| - 1 ensures r[i] == ProductOf(records[i], category, date, parsePrice) {
        assert init[i] == records[i];
      }
    }
  }

  /** The parsed batch is what the store expects: no ids, the category's id, the request's day. */
  lemma ProductsReady(records: seq<Goods>, category: Category, date: Date, parsePrice: PriceParser)
    ensures ReadyBatch(Products(records, category, date, parsePrice), category, date)
  {
    ProductsIndex(records, category, date, parsePrice);
  }

  /** Records with distinct ids give products with distinct codes and distinct pages. */
  lemma ProductsDistinct(records: seq<Goods>, category: Category, date: Date, parsePrice: PriceParser)
    requires forall a, b :: 0 <= a < b < |records| ==> records[a].id != records[b].id
    ensures var r := Products(records, category, date, parsePrice);
      forall a, b :: 0 <= a < b < |r| ==> r[a].productCode != r[b].productCode && r[a].url != r[b].url
  {
    ProductsIndex(records, category, date, parsePrice);
    var r := Products(records, category, date, parsePrice);
    forall a, b | 0 <= a < b < |r| ensures r[a].productCode != r[b].productCode && r[a].url != r[b].url {
      var x, y := r[a], r[b];
      if x.productCode == y.productCode {
        IntToStringInjective(records[a].id, records[b].id);
      }
      Infix(UrlPrefix, x.productCode, UrlSuffix);
      Infix(UrlPrefix, y.productCode, UrlSuffix);
    }
  }

  /** A product page address names the product's code, and the code its id. */
  lemma UrlNamesProduct(g: Goods, category: Category, date: Date, parsePrice: PriceParser)
    ensures var p := ProductOf(g, category, date, parsePrice);
      && StartsWith(p.url, UrlPrefix)
      && PyInt(p.url[|UrlPrefix|..|p.url| - |UrlSuffix|]) == Some(g.id)
  {
    Infix(UrlPrefix, IntToString(g.id), UrlSuffix);
    IntRoundTrip(g.id);
  }
}

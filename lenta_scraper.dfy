/**
 * The Lenta product scraper: turns the items of one category, as the
 * catalogue endpoint returns them, into products with their observation of
 * the day. Both prices are read in kopecks; the package weight is the unit.
 */
module LentaScraper {
  import opened Wrappers
  import opened Json
  import opened Text
  import opened Common

  /** The product page prefix; the page is `<prefix><slug>-<code>`. */
  const UrlPrefix: string := "https://lenta.com/product/"

  /** `record['rating']`, when it is a dictionary. */
  datatype Rating = Rating(rate: Field<real>, votes: Field<int>)

  /** `record['weight']`, when it is a dictionary. */
  datatype Weight = Weight(package: Field<string>)

  /** One item record: the keys the scraper reads, and `record['prices']`. */
  datatype Item = Item(
    id: int,
    name: string,
    slug: string,
    prices: map<string, Json>,
    rating: Field<Rating>,
    weight: Field<Weight>)

  /** `rating_info.get('rate')`: null and absent both give no rating. */
  function RateOf(rating: Field<Rating>): (r: Option<real>)
    ensures r.Some? <==> rating.Present? && rating.value.rate.Present?
    ensures r.Some? ==> r.value == rating.value.rate.value
  {
    if rating.Present? then FieldValue(rating.value.rate) else None
  }

  /** `rating_info.get('votes') or 0`: a missing or null count is zero. */
  function VotesOf(rating: Field<Rating>): (n: int)
    ensures n != 0 ==> rating.Present? && rating.value.votes == Present(n)
    ensures rating.Present? && rating.value.votes.Present? ==> n == rating.value.votes.value
  {
    if rating.Present? && rating.value.votes.Present? then rating.value.votes.value else 0
  }

  /**
   * `record.get('weight', {}).get('package')`: an absent weight reads as
   * an empty dictionary, but a null one has no `get` and raises.
   */
  function PackageOf(weight: Field<Weight>): (r: Result<Option<string>, PyError>)
    ensures r.Failure? <==> weight.Null?
    ensures r.Failure? ==> r.error == AttributeError
    ensures r.Success? && r.value.Some? <==> weight.Present? && weight.value.package.Present?
    ensures r.Success? && r.value.Some? ==> r.value.value == weight.value.package.value
  {
    match weight
    case Absent => Success(None)
    case Null => Failure(AttributeError)
    case Present(w) => Success(FieldValue(w.package))
  }

  /** The product built from one record, or the error it raises. */
  function ProductOf(item: Item, category: Category, date: Date, parsePrice: PriceParser): (r: Result<Product, PyError>)
    ensures r.Failure? <==> item.weight.Null?
    ensures r.Success? ==> var p := r.value;
      && p.productCode == IntToString(item.id)
      && p.url == UrlPrefix + item.slug + "-" + p.productCode
      && p.name == item.name && p.categoryId == category.categoryId
      && p.productId == None && p.createdOn == date
      && p.info.productId == None && p.info.observedOn == date
      && p.info.price == parsePrice(item.prices, "priceRegular", Kopecks)
      && p.info.discountedPrice == parsePrice(item.prices, "price", Kopecks)
      && p.info.rating == RateOf(item.rating) && p.info.ratesCount == VotesOf(item.rating)
      && p.info.unit == PackageOf(item.weight).value
  {
    var code := IntToString(item.id);
    match PackageOf(item.weight)
    case Failure(e) => Failure(e)
    case Success(unit) =>
      Success(Product(None, code, category.categoryId, item.name, UrlPrefix + item.slug + "-" + code, date,
        ProductInfo(None, date, parsePrice(item.prices, "priceRegular", Kopecks), parsePrice(item.prices, "price", Kopecks),
          RateOf(item.rating), VotesOf(item.rating), unit)))
  }

  /** The products of `records`, in order, or the error of the first record that raises. */
  function Products(records: seq<Item>, category: Category, date: Date, parsePrice: PriceParser): Result<seq<Product>, PyError>
  {
    if records == [] then Success([])
    else
      match Products(records[..|records| - 1], category, date, parsePrice)
      case Failure(e) => Failure(e)
      case Success(prev) =>
        match ProductOf(records[|records| - 1], category, date, parsePrice)
        case Failure(e) => Failure(e)
        case Success(p) => Success(prev + [p])
  }

  /** `parse_data(request_data, category)` */
  method ParseData(request: RequestData<Item>, category: Category, parsePrice: PriceParser) returns (r: Result<seq<Product>, PyError>)
    ensures r == Products(request.products, category, request.date, parsePrice)
  {
    var records := request.products;
    var items: seq<Product> := [];
    var i := 0;
    while i < |records|
      invariant 0 <= i <= |records|
      invariant Products(records[..i], category, request.date, parsePrice) == Success(items)
    {
      var record := records[i];
      var code := IntToString(record.id);
      var rating := RateOf(record.rating);
      var votes := VotesOf(record.rating);
      var unit := PackageOf(record.weight);
      ProductsStep(records, i, category, request.date, parsePrice);
      if unit.Failure? {
        ProductsFailurePersists(records, i + 1, category, request.date, parsePrice);
        return Failure(unit.error);
      }
      var info := ProductInfo(None, request.date, parsePrice(record.prices, "priceRegular", Kopecks),
        parsePrice(record.prices, "price", Kopecks), rating, votes, unit.value);
      var product := Product(None, code, category.categoryId, record.name, UrlPrefix + record.slug + "-" + code, request.date, info);
      items := items + [product];
      i := i + 1;
    }
    assert records[..|records|] == records;
    r := Success(items);
  }

  /** One more record: its product is appended, or its error ends the parse. */
  lemma ProductsStep(records: seq<Item>, i: nat, category: Category, date: Date, parsePrice: PriceParser)
    requires i < |records| && Products(records[..i], category, date, parsePrice).Success?
    ensures Products(records[..i + 1], category, date, parsePrice) ==
      match ProductOf(records[i], category, date, parsePrice)
      case Failure(e) => Failure(e)
      case Success(p) => Success(Products(records[..i], category, date, parsePrice).value + [p])
  {
    assert records[..i + 1][..i] == records[..i];
  }

  /** Once a record raises, the whole parse fails with its error. */
  lemma {:induction false} ProductsFailurePersists(records: seq<Item>, k: nat, category: Category, date: Date, parsePrice: PriceParser)
    requires k <= |records| && Products(records[..k], category, date, parsePrice).Failure?
    ensures Products(records, category, date, parsePrice) == Products(records[..k], category, date, parsePrice)
    decreases |records|
  {
    if k < |records| {
      var init := records[..|records| - 1];
      assert init[..k] == records[..k];
      ProductsFailurePersists(init, k, category, date, parsePrice);
    } else {
      assert records[..k] == records;
    }
  }

  /** Some record has a null weight. */
  predicate SomeNullWeight(records: seq<Item>)
  {
    exists i :: 0 <= i < |records| && records[i].weight.Null?
  }

  lemma SomeNullWeightStep(records: seq<Item>)
    requires records != []
    ensures SomeNullWeight(records) <==>
      SomeNullWeight(records[..|records| - 1]) || records[|records| - 1].weight.Null?
  {
    var init := records[..|records| - 1];
    if SomeNullWeight(init) {
      var i :| 0 <= i < |init| && init[i].weight.Null?;
      assert records[i] == init[i];
    }
    if SomeNullWeight(records) {
      var i :| 0 <= i < |records| && records[i].weight.Null?;
      if i < |init| {
        assert init[i] == records[i];
      }
    }
  }

  /** The parse fails, with AttributeError, exactly when some record has a null weight. */
  lemma {:induction false} ProductsFail(records: seq<Item>, category: Category, date: Date, parsePrice: PriceParser)
    ensures Products(records, category, date, parsePrice).Failure? <==> SomeNullWeight(records)
    ensures Products(records, category, date, parsePrice).Failure? ==> Products(records, category, date, parsePrice).error == AttributeError
  {
    if records != [] {
      ProductsFail(records[..|records| - 1], category, date, parsePrice);
      SomeNullWeightStep(records);
    }
  }

  /** On success, exactly one product per record, in the records' order. */
  lemma {:induction false} ProductsIndex(records: seq<Item>, category: Category, date: Date, parsePrice: PriceParser)
    requires Products(records, category, date, parsePrice).Success?
    ensures var r := Products(records, category, date, parsePrice).value;
      |r| == |records| && forall i :: 0 <= i < |records| ==> Success(r[i]) == ProductOf(records[i], category, date, parsePrice)
  {
    if records != [] {
      var init := records[..|records| - 1];
      ProductsIndex(init, category, date, parsePrice);
      var r := Products(records, category, date, parsePrice).value;
      assert r == Products(init, category, date, parsePrice).value + [ProductOf(records[|records| - 1], category, date, parsePrice).value];
      forall i | 0 <= i < |records| - 1 ensures Success(r[i]) == ProductOf(records[i], category, date, parsePrice) {
        assert init[i] == records[i];
      }
    }
  }

  /** The parsed batch is what the store expects: no ids, the category's id, the request's day. */
  lemma ProductsReady(records: seq<Item>, category: Category, date: Date, parsePrice: PriceParser)
    requires Products(records, category, date, parsePrice).Success?
    ensures ReadyBatch(Products(records, category, date, parsePrice).value, category, date)
  {
    ProductsIndex(records, category, date, parsePrice);
  }

  /** A product's code is its record's id, written out: reading it back gives the id. */
  lemma ProductCode(item: Item, category: Category, date: Date, parsePrice: PriceParser)
    requires ProductOf(item, category, date, parsePrice).Success?
    ensures PyInt(ProductOf(item, category, date, parsePrice).value.productCode) == Some(item.id)
  {
    IntRoundTrip(item.id);
  }

  /** Records with distinct ids give products with distinct codes. */
  lemma ProductsDistinct(records: seq<Item>, category: Category, date: Date, parsePrice: PriceParser)
    requires Products(records, category, date, parsePrice).Success?
    requires forall a, b :: 0 <= a < b < |records| ==> records[a].id != records[b].id
    ensures var r := Products(records, category, date, parsePrice).value;
      forall a, b :: 0 <= a < b < |r| ==> r[a].productCode != r[b].productCode
  {
    ProductsIndex(records, category, date, parsePrice);
    var r := Products(records, category, date, parsePrice).value;
    forall a, b | 0 <= a < b < |r| ensures r[a].productCode != r[b].productCode {
      if r[a].productCode == r[b].productCode {
        IntToStringInjective(records[a].id, records[b].id);
      }
    }
  }
}

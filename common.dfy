/**
 * The records that flow between the scrapers and the store: a supermarket,
 * a category, a product and its dated observation (`ProductInfo`).
 * Dates are day numbers; money and ratings are exact decimals (`real`).
 */
module Common {
  import opened Wrappers
  import opened Json

  /** A calendar day, as a day number. */
  type Date = int

  datatype Supermarket = Supermarket(supermarketId: int, name: string)

  datatype Category = Category(
    supermarketId: Option<int>,
    categoryId: Option<int>,
    categoryCode: string,
    name: string,
    lastScrapedOn: Option<Date>)

  datatype ProductInfo = ProductInfo(
    productId: Option<int>,
    observedOn: Date,
    price: Option<real>,
    discountedPrice: Option<real>,
    rating: Option<real>,
    ratesCount: int,
    unit: Option<string>)

  datatype Product = Product(
    productId: Option<int>,
    productCode: string,
    categoryId: Option<int>,
    name: string,
    url: string,
    createdOn: Date,
    info: ProductInfo)

  /** How `parse_price` reads a number: as roubles, or (`unit='k'`) as kopecks. */
  datatype PriceUnit = Roubles | Kopecks

  /**
   * `parse_price(d, key, unit)`: the price under `key` in the dictionary
   * `d`, or None. Its body is not part of this model, so every scraper
   * takes it as a parameter.
   */
  type PriceParser = (map<string, Json>, string, PriceUnit) -> Option<real>

  /** What a scraper needs to know about the request it parses: the day it was made. */
  datatype RequestData<R> = RequestData(category: Category, products: seq<R>, date: Date)

  /**
   * What the store expects of a parsed batch: no ids yet, every product
   * filed under `category` and observed on the day it was first seen.
   */
  predicate ReadyBatch(items: seq<Product>, category: Category, date: Date)
  {
    forall i :: 0 <= i < |items| ==>
      && items[i].productId.None? && items[i].info.productId.None?
      && items[i].categoryId == category.categoryId
      && items[i].createdOn == date && items[i].info.observedOn == date
  }
}

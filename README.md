# price_etl core, modelled in Dafny

price_etl collects the prices of three Russian supermarket chains (Magnit,
Lenta, Pyaterochka) once a day and files them in a MySQL database. For each
chain a catalogue parser turns the chain's category tree into a list of
categories. A scraper turns the products of one category into products,
each with its observation of the day: prices, rating, number of ratings and
unit. The database helpers store the categories, pick the next category
that needs scraping, and upsert a batch of products together with their
observations.

This project models those three parts and proves what they promise.

- `wrappers.dfy`: `Option` and `Result`.
- `json.dfy`: a JSON value and Python's failures (`KeyError`,
  `AttributeError`, `RecursionError`, ...). It also models how a key read
  with `.get` can be absent, null or present, Python truthiness, negative
  list indices and `list.index`.
- `text.dfy`: `str(n)`, `int(s)`, `str.strip`, `startswith` and `join`.
  It proves that `int(str(n)) == n` and that `str` is injective.
- `common.dfy`: the records the scrapers and the database share
  (`Supermarket`, `Category`, `Product`, `ProductInfo`, `RequestData`). It
  also defines the precondition a parsed batch meets (`ReadyBatch`).
- `tables.dfy`: the four tables as maps, and each SQL statement the helpers
  run as a function over them:
  - the category upsert;
  - the product UPDATE and INSERT;
  - the INSERT IGNORE of observations;
  - the join from product codes to ids.

  Lemmas state what each statement keeps and changes.
- `store.dfy`: class `Store`. Its fields are the tables and their
  AUTO_INCREMENT counters, and it has one method per helper of
  `db/mysql_functions.py`. `SplitBatch` is the loop of `upsert_product_list`.
- `magnit_catalogue.dfy`, `lenta_catalogue.dfy`, `pyaterochka_catalogue.dfy`:
  the three `parse_categories`. Magnit's also includes `collect_category_info`,
  `construct_full_name` and `get_parents`.
- `magnit_scraper.dfy`, `lenta_scraper.dfy`, `pyaterochka_scraper.dfy`: the
  three `parse_data`.

The model follows the code's own edge cases:

- **Magnit catalogue.**
  - `json_data.index(item)` finds the first occurrence of a marker.
  - Index `-1` reads the last element of the list.
  - `$` in `^g\d+$` also matches before a final newline.
  - A parent that was never collected raises `KeyError`.
  - A cycle of parents recurses until `RecursionError`.
  - The exclusion pattern matches only at the start of the full name.
- **Magnit scraper.** `or None` turns a rating of 0.0 into no rating.
- **Lenta.**
  - An item whose `weight` is JSON null makes `parse_data` raise
    `AttributeError`.
  - `'Особенно выгодно'` is listed twice among the excluded parents.
- **Database.**
  - `fetch_product_codes_map` on an empty batch builds `IN ()`, which is a
    syntax error.
  - A date after today makes `update_category_date_field` raise.

Each database helper commits on its own. A failing step of
`upsert_product_list` therefore leaves the earlier steps' effects in place.

## Model

| member | source | states |
|---|---|---|
| Json.FirstIndex | scrapers/magnit/catalogue.py:36-37 | `list.index` of a value in the list gives a position that holds that value |
| Json.FirstIndexIsFirst | scrapers/magnit/catalogue.py:36 | no position before the one `list.index` returns holds the value |
| Text.IntRoundTrip | scrapers/magnit/catalogue.py:108 | reading `str(i)` back with `int()` gives `i`, for every integer |
| Text.IntToStringInjective | scrapers/magnit/catalogue.py:108 | distinct integers have distinct decimal strings, so distinct ids give distinct codes |
| Text.TrimStartRemovesSpace | scrapers/magnit/catalogue.py:43 | `lstrip` removes only whitespace characters |
| Text.TrimEndRemovesSpace | scrapers/magnit/catalogue.py:43 | `rstrip` removes only whitespace characters |
| Text.Strip | scrapers/magnit/catalogue.py:43 | the stripped name neither starts nor ends with whitespace |
| Text.PyIntOfDigits | scrapers/magnit/catalogue.py:37 | `int()` of digits, optionally followed by a newline, is the value of the digits |
| Db.SplitBatch | db/mysql_functions.py:336-343 | every item is filed under the category; the items whose code is known go to the update list, the others to the insert list, both in batch order |
| Db.Store.FetchSupermarketById | db/mysql_functions.py:121-137 | the supermarket is returned exactly when the id is stored, and it carries the stored name |
| Db.Store.FetchSupermarketByName | db/mysql_functions.py:102-118 | None exactly when no supermarket has the name; otherwise a supermarket with that name, which is found again by its id |
| Db.Store.FetchCategoryToScrape | db/mysql_functions.py:140-170 | None exactly when no category of the supermarket is eligible (never scraped or last scraped more than six days ago, and not found empty today); otherwise some eligible category |
| Db.Store.FetchProductsCodes | db/mysql_functions.py:214-232 | the codes are exactly those of the products filed under a category of the category's supermarket |
| Db.Store.UpsertCategories | db/mysql_functions.py:193-211 | a category with no supermarket fails the statement and nothing changes; otherwise the result is the in-order upsert and the unique key is kept |
| Db.Store.UpdateExistentProducts | db/mysql_functions.py:235-252 | the product table becomes the in-order UPDATE of name and url, by code and category; nothing else changes |
| Db.Store.InsertNewProducts | db/mysql_functions.py:255-271 | it succeeds exactly when the in-order INSERT meets no duplicate key; on failure nothing changes |
| Db.Store.InsertProductInfos | db/mysql_functions.py:274-290 | the observation table becomes the INSERT IGNORE of the batch; nothing else changes |
| Db.Store.FetchProductCodesMap | db/mysql_functions.py:293-317 | an empty batch is a syntax error; otherwise the keys are exactly the batch codes the supermarket has, each mapped to one of its products with that code |
| Db.Store.UpdateCategoryDateField | db/mysql_functions.py:356-380 | a date after today fails and changes nothing; otherwise only the named date field of the category's row is set |
| Db.Store.StoreProducts | db/mysql_functions.py:334-346 | the UPDATE and INSERT steps: products keep their ids, those with a known code are refreshed, new rows are exactly the unknown-code items, one row per item when the INSERT goes through, which it does without explicit ids; afterwards every code belongs to the category's supermarket |
| Db.Store.UpsertProductList | db/mysql_functions.py:320-353 | stored products keep their ids; those whose code the supermarket had take the batch's name and url; new rows are exactly the items with unknown codes, filed under the category, and on success each such item has a new row of its own (duplicates included), so the table grows by their number; stored observations are never overwritten; on success the codes resolved are exactly the batch's codes, each the id of a product of the supermarket, the observations are the INSERT IGNORE of the batch's under those ids, every item has an observation under its product's id, and the result is the first item's date; a batch without explicit ids, for a category of its supermarket, always succeeds |
| Tables.SupermarketCodes | db/mysql_functions.py:223-232 | a code is in the set exactly when some product of the supermarket carries it |
| Tables.Refreshed | db/mysql_functions.py:244-247 | the UPDATE never changes a row's code, category or creation date |
| Tables.RefreshedNoHit | db/mysql_functions.py:244-247 | a row that no statement matches is left as it is |
| Tables.RefreshedLastHit | db/mysql_functions.py:244-247 | a matched row carries the name and url of the last statement that matches it |
| Tables.RefreshIdempotent | db/mysql_functions.py:242-252 | running the same updates twice leaves the table as running them once |
| Tables.RefreshedOtherCategory | db/mysql_functions.py:244-247 | a batch filed under one category does not touch the rows of another category, or any row when the category id is NULL |
| Tables.RefreshAllResolves | db/mysql_functions.py:244-247 | the UPDATE changes no supermarket's set of codes |
| Tables.InsertIgnoreKeys | db/mysql_functions.py:285-288 | after INSERT IGNORE the keys are exactly the old keys plus the batch's keys |
| Tables.InsertIgnoreKeeps | db/mysql_functions.py:277-278 | a stored observation is never overwritten |
| Tables.InsertIgnoreFirstWins | db/mysql_functions.py:285-288 | within a batch, the first observation for a new key is the one stored |
| Tables.InsertIgnoreIdempotent | db/mysql_functions.py:277-278 | inserting the same observations again changes nothing |
| Tables.InsertProductsSucceeds | db/mysql_functions.py:264-267 | an INSERT with no explicit product ids always succeeds |
| Tables.InsertProductsCounter | db/mysql_functions.py:264-267 | a successful INSERT keeps every id below the AUTO_INCREMENT counter |
| Tables.InsertProductsKeeps | db/mysql_functions.py:264-267 | a successful INSERT keeps every stored row and adds exactly one row per item |
| Tables.InsertProductsFromItems | db/mysql_functions.py:264-269 | every added row holds the fields of some item |
| Tables.InsertProductsEveryItem | db/mysql_functions.py:264-269 | every item has an added row holding its fields |
| Tables.InsertProductsFailurePersists | db/mysql_functions.py:263-270 | once part of the batch collides, the whole INSERT fails |
| Tables.UpsertRowStep | db/mysql_functions.py:204-207 | one row either renames the row with the same (supermarket, code) key or adds a fresh row with null dates |
| Tables.UpsertRowsKeep | db/mysql_functions.py:196-207 | stored rows keep their id, key and dates, and their name when their key is not listed; new rows have fresh ids, null dates and a listed key |
| Tables.UpsertRowsInvariant | db/mysql_functions.py:196-207 | the upsert keeps the (supermarket, code) key unique and every id below the counter |
| Tables.UpsertRowsNames | db/mysql_functions.py:196-207 | every listed key has a row, named after the last listed category with that key |
| Tables.Select | db/mysql_functions.py:338-343 | an item is selected exactly when whether its code is known matches the choice |
| Tables.SelectPartition | db/mysql_functions.py:338-343 | the update and insert lists together hold every item of the batch exactly as often as it occurs |
| Tables.StampedCodes | db/mysql_functions.py:338-339 | filing the batch under the category keeps its set of codes |
| Tables.AssignIds | db/mysql_functions.py:348-349 | ids are assigned exactly when every code has one; then every product and its observation carry the id of its code |
| Tables.RefreshedSelect | db/mysql_functions.py:340-345 | for a row with a known code, updating with the known items is the same as updating with the whole batch |
| Tables.RefreshedUnselected | db/mysql_functions.py:340-345 | a row whose code is unknown is not touched by the update of known items |
| Tables.BatchRefreshRows | db/mysql_functions.py:338-345 | the update step refreshes exactly the stored rows with a known code, as the whole batch would |
| Tables.BatchNewRowsComplete | db/mysql_functions.py:343-346 | after a successful INSERT each item with an unknown code has its own new row, and the table grows by the number of such items |
| Tables.BatchNewRows | db/mysql_functions.py:338-346 | the insert step keeps every stored row, and each new row is an item with an unknown code, filed under the category |
| Tables.BatchResolves | db/mysql_functions.py:345-348 | after the update and insert, every batch code belongs to the category's supermarket |
| Tables.ObservationsStored | db/mysql_functions.py:349-351 | after the observations are inserted, every item has an observation under its id and its date |
| MagnitCatalogue.Put | scrapers/magnit/catalogue.py:47 | assigning a key sets its entry and keeps the other entries; a present key leaves the key order unchanged, and a new key is appended at the end of it |
| MagnitCatalogue.PutWellFormed | scrapers/magnit/catalogue.py:47 | the dictionary still lists each key once |
| MagnitCatalogue.MarkerDigits | scrapers/magnit/catalogue.py:34 | a marker has a non-empty run of digits after its `g` |
| MagnitCatalogue.MarkerId | scrapers/magnit/catalogue.py:34-37 | `int(item[1:])` never raises on a marker, and reads its digits |
| MagnitCatalogue.ReadDetails | scrapers/magnit/catalogue.py:43-46 | the name read is stripped |
| MagnitCatalogue.PrecedingIsPyIndex | scrapers/magnit/catalogue.py:36-38 | reading at `index - 1` never fails, and gives the last element for index 0 |
| MagnitCatalogue.MarkerInfo | scrapers/magnit/catalogue.py:32-40 | a category id read from a marker is never negative |
| MagnitCatalogue.CollectCategoryInfo | scrapers/magnit/catalogue.py:22-48 | the method computes the loop over the whole list, with the parser's own reading of the details |
| MagnitCatalogue.CollectWith | scrapers/magnit/catalogue.py:30-48 | the loop computes the collection over the whole list, or the first error |
| MagnitCatalogue.CollectedOrderGrows | scrapers/magnit/catalogue.py:30-47 | the keys collected so far stay, in their order, at the head of the keys collected later: the dictionary lists categories by their first marker |
| MagnitCatalogue.CollectedNewKeyLast | scrapers/magnit/catalogue.py:31-47 | a marker whose id is not yet collected appends that id to the key order |
| MagnitCatalogue.CollectedByStep | scrapers/magnit/catalogue.py:31-47 | one more element is one more turn of the loop |
| MagnitCatalogue.CollectedWellFormed | scrapers/magnit/catalogue.py:30-47 | the collected dictionary lists each of its keys once |
| MagnitCatalogue.CollectedFailurePersists | scrapers/magnit/catalogue.py:43-46 | once a category's details fail to read, the whole collection fails with that error |
| MagnitCatalogue.CollectedSucceeds | scrapers/magnit/catalogue.py:31-47 | the collection succeeds exactly when the details of every category among the elements read |
| MagnitCatalogue.CollectedKeys | scrapers/magnit/catalogue.py:31-47 | the ids collected are exactly the ids of the markers whose preceding element is a dictionary |
| MagnitCatalogue.CollectedLast | scrapers/magnit/catalogue.py:47 | a category holds the details read for its last marker |
| MagnitCatalogue.GetParents | scrapers/magnit/catalogue.py:59-66 | the walk only prepends, so the list it was given is the tail of its result, and every id in the result is collected |
| MagnitCatalogue.GetParentsSound | scrapers/magnit/catalogue.py:59-66 | what the walk returns is a full ancestry: from a top category down, each the parent of the next, no id twice |
| MagnitCatalogue.GetParentsComplete | scrapers/magnit/catalogue.py:59-66 | the walk from any suffix of a full ancestry returns that ancestry |
| MagnitCatalogue.GetParentsIsAncestry | scrapers/magnit/catalogue.py:59-66 | `get_parents(id)` returns a chain exactly when the chain is the full ancestry of `id` |
| MagnitCatalogue.Names | scrapers/magnit/catalogue.py:73-74 | the names listed are those of the ids, in order |
| MagnitCatalogue.EntrySound | scrapers/magnit/catalogue.py:68-81 | a kept entry is a leaf below at least one parent; it carries its category's full ancestry, ending in that category, and the joined names along it |
| MagnitCatalogue.EntryComplete | scrapers/magnit/catalogue.py:68-81 | when its walk succeeds, a category is kept exactly when it is a leaf below at least one parent |
| MagnitCatalogue.FullNamesSucceed | scrapers/magnit/catalogue.py:68-69 | when every walk succeeds, so does the construction |
| MagnitCatalogue.FullNamesFail | scrapers/magnit/catalogue.py:68-69 | the first key whose walk fails makes the construction fail with that error |
| MagnitCatalogue.WalkAll | scrapers/magnit/catalogue.py:68-69 | the first loop gives every key its walk, or the error of the first walk that fails |
| MagnitCatalogue.ConstructFullName | scrapers/magnit/catalogue.py:51-82 | the method computes the full names and the filter over all keys in insertion order |
| MagnitCatalogue.FullNamesEntries | scrapers/magnit/catalogue.py:71-81 | every entry kept is a collected leaf with its full ancestry and joined name |
| MagnitCatalogue.FullNamesComplete | scrapers/magnit/catalogue.py:78-81 | every collected leaf below at least one parent is kept |
| MagnitCatalogue.FullNamesDistinct | scrapers/magnit/catalogue.py:78-81 | no category is kept twice |
| MagnitCatalogue.CategoryOf | scrapers/magnit/catalogue.py:105-110 | the category has no database id, the supermarket's id, the full name, and a code that reads back as the category id |
| MagnitCatalogue.ParseCategories | scrapers/magnit/catalogue.py:85-111 | the method computes collection, full names and filter, or the first error |
| MagnitCatalogue.ParseWith | scrapers/magnit/catalogue.py:94-111 | the same, for any reading of the category details |
| MagnitCatalogue.SelectCategories | scrapers/magnit/catalogue.py:100-111 | the loop keeps the entries in order and builds their categories |
| MagnitCatalogue.SelectedMembers | scrapers/magnit/catalogue.py:101-110 | a category comes out exactly for an entry whose full name is not excluded |
| MagnitCatalogue.SelectedCodes | scrapers/magnit/catalogue.py:105-110 | every category comes from an entry, and there are no more categories than entries |
| MagnitCatalogue.SelectedDistinct | scrapers/magnit/catalogue.py:105-110 | entries with distinct ids give distinct category codes |
| MagnitCatalogue.ParsedCategories | scrapers/magnit/catalogue.py:85-111 | a category comes out exactly for a collected leaf below at least one parent whose joined name is not excluded; it is named after its ancestry and coded by its id, and no code comes out twice |
| MagnitCatalogue.TwoLevelExample | scrapers/magnit/catalogue.py:85-111 | a section with one leaf below it gives one category, "section / leaf", coded by the leaf's id |
| LentaCatalogue.CategoryOf | scrapers/lenta/catalogue.py:43-49 | the category is named `parent / name`, has no database id, and its code reads back as the id |
| LentaCatalogue.ParseCategories | scrapers/lenta/catalogue.py:21-50 | the loop keeps the second-level entries outside the excluded sections, in order |
| LentaCatalogue.SelectedAppend | scrapers/lenta/catalogue.py:37-49 | parsing two lists joined gives the two outputs joined |
| LentaCatalogue.SelectedMembers | scrapers/lenta/catalogue.py:37-49 | a category comes out exactly for a second-level entry whose parent is neither excluded nor a discount catalogue |
| LentaCatalogue.SelectedDistinct | scrapers/lenta/catalogue.py:47 | distinct ids give distinct category codes |
| LentaCatalogue.DiscountSectionDropped | scrapers/lenta/catalogue.py:41-42 | an entry under a discount-catalogue section is dropped |
| PyaterochkaCatalogue.InnerCategoryOf | scrapers/pyaterochka/catalogue.py:38-41 | the record has no supermarket and no database id, and carries the subcategory's id and name |
| PyaterochkaCatalogue.ParseCategories | scrapers/pyaterochka/catalogue.py:26-42 | the nested loops list the subcategories of each top category, one top category after another |
| PyaterochkaCatalogue.FlattenedLength | scrapers/pyaterochka/catalogue.py:35-42 | there is one output per subcategory |
| PyaterochkaCatalogue.FlattenedAppend | scrapers/pyaterochka/catalogue.py:36-41 | flattening two lists joined gives the two outputs joined |
| PyaterochkaCatalogue.FlattenedPosition | scrapers/pyaterochka/catalogue.py:36-41 | subcategory `j` of top category `i` comes out right after the subcategories before it |
| PyaterochkaCatalogue.FlattenedMembers | scrapers/pyaterochka/catalogue.py:36-41 | every output is a subcategory, and every subcategory is output |
| MagnitScraper.RatingOf | scrapers/magnit/scraper.py:74-87 | a rating exists exactly when one is present and non-zero, and it is that value |
| MagnitScraper.ScoresOf | scrapers/magnit/scraper.py:74-88 | a missing or null count is zero; a present one is kept |
| MagnitScraper.Prices | scrapers/magnit/scraper.py:75-81 | on promotion, the old price is the price and the current price is the discount; otherwise there is no discount |
| MagnitScraper.ProductOf | scrapers/magnit/scraper.py:64-92 | the product has the record's code, its page on the site, name, category and date, no id and no unit; its prices follow the promotion rule of Prices, its rating and count those of RatingOf and ScoresOf |
| MagnitScraper.ParseData | scrapers/magnit/scraper.py:54-93 | the loop builds the products of the records, in order |
| MagnitScraper.ProductsIndex | scrapers/magnit/scraper.py:62-93 | there is exactly one product per record, in record order |
| MagnitScraper.ProductsReady | scrapers/magnit/scraper.py:66-90 | the batch has no ids and carries the category's id and the request's date, as the database step expects |
| MagnitScraper.ProductsDistinct | scrapers/magnit/scraper.py:64-71 | records with distinct ids give distinct codes and distinct pages |
| MagnitScraper.UrlNamesProduct | scrapers/magnit/scraper.py:64-71 | a product's page is on the Magnit site and names the record's id |
| LentaScraper.RateOf | scrapers/lenta/scraper.py:69-75 | a rating exists exactly when one is present, and it is that value |
| LentaScraper.VotesOf | scrapers/lenta/scraper.py:69-76 | a missing or null count is zero; a present one is kept |
| LentaScraper.PackageOf | scrapers/lenta/scraper.py:77 | a null weight raises AttributeError; an absent weight or package gives no unit; otherwise the package is the unit |
| LentaScraper.ProductOf | scrapers/lenta/scraper.py:60-78 | a record fails exactly when its weight is null; otherwise its product has the code, page, name, category, date and kopeck prices of the record, the record's rating and vote count, and the parsed package as unit |
| LentaScraper.ParseData | scrapers/lenta/scraper.py:50-81 | the loop builds the products of the records, or stops at the first record that raises |
| LentaScraper.ProductsStep | scrapers/lenta/scraper.py:59-80 | one more record either appends its product or ends the parse with its error |
| LentaScraper.ProductsFailurePersists | scrapers/lenta/scraper.py:59-80 | once a record raises, the whole parse fails with its error |
| LentaScraper.ProductsFail | scrapers/lenta/scraper.py:77 | the parse fails, with AttributeError, exactly when some record has a null weight |
| LentaScraper.ProductsIndex | scrapers/lenta/scraper.py:58-81 | on success there is exactly one product per record, in record order |
| LentaScraper.ProductsReady | scrapers/lenta/scraper.py:61-78 | the batch has no ids and carries the category's id and the request's date |
| LentaScraper.ProductCode | scrapers/lenta/scraper.py:60 | the product code reads back as the record's id |
| LentaScraper.ProductsDistinct | scrapers/lenta/scraper.py:60-64 | records with distinct ids give distinct codes |
| PyaterochkaScraper.AverageOf | scrapers/pyaterochka/scraper.py:64-70 | a rating exists exactly when one is present, and it is that value |
| PyaterochkaScraper.RatesOf | scrapers/pyaterochka/scraper.py:64-71 | a missing or null count is zero; a present one is kept |
| PyaterochkaScraper.ProductOf | scrapers/pyaterochka/scraper.py:55-73 | the product has the record's code, page, name, category and date, prices read in roubles, the record's clarification as unit, and the record's average rating and rate count |
| PyaterochkaScraper.ParseData | scrapers/pyaterochka/scraper.py:45-76 | the loop builds the products of the records, in order |
| PyaterochkaScraper.ProductsIndex | scrapers/pyaterochka/scraper.py:53-76 | there is exactly one product per record, in record order |
| PyaterochkaScraper.ProductsReady | scrapers/pyaterochka/scraper.py:56-73 | the batch has no ids and carries the category's id and the request's date |
| PyaterochkaScraper.UrlNamesProduct | scrapers/pyaterochka/scraper.py:55-61 | the page is on the Pyaterochka site; the code and the page both read back as the PLU |
| PyaterochkaScraper.ProductsDistinct | scrapers/pyaterochka/scraper.py:55-61 | records with distinct PLUs give distinct codes and distinct pages |

## Left out

- Connections, cursors, commits and rollbacks, the SQL text, the Airflow XCom readers (`airflow_category`, `airflow_data`, `airflow_product_list`), the HTTP requests, every `main()` and the DAGs. They are I/O; the tables are maps in memory.
- `parse_price`: its body is not part of this model. It is a parameter of the scrapers, given the record's dictionary, the key and the unit. Pyaterochka calls it without a unit, which is modelled as its default, roubles.
- "today" (`get_today_date`) is a parameter of `FetchCategoryToScrape` and `UpdateCategoryDateField`, and dates are day numbers.
- `db/local_storage.py`, `scrapers/common.py` (logging, headers) and `fetch_supermarket_categories` are not part of this model.
- Db.Store.FetchCategoryToScrape: `ORDER BY RAND()` is modelled as an arbitrary choice among the eligible categories. Which one is picked is not modelled.
- Db.Store.FetchSupermarketByName: if several supermarkets share a name, some one of them is returned. The database's pick is not modelled.
- Db.Store.FetchProductCodesMap: a code carried by several products of the supermarket maps to one of them. Which one is up to the database and is not modelled.
- Db.Store.UpsertProductList: `ProductList.update_product_ids` is not part of this model. It is modelled as `Tables.AssignIds`: each item takes the id of its code, and a missing code fails. The `ids` it reports is a ghost out-parameter.
- Db.Store.UpsertProductList: the UPDATE matches on code and on the batch's category, and sets only name and url. So a product that moved to another category of the same supermarket keeps its old category id, as in the code.
- Db.Store.InsertNewProducts: AUTO_INCREMENT is modelled as a counter that is one past the highest id used. MySQL's gaps after failed inserts are not modelled.
- Db.Store.UpsertCategories: the same counter is used for categories, and Tables.UpsertRowStep only advances it for a new row. InnoDB also uses up an AUTO_INCREMENT value when a row turns into an update on a duplicate key; those gaps are not modelled.
- Db.Store.UpsertCategories: a category without a supermarket id fails the whole statement. This models the column as NOT NULL.
- String comparison in SQL is exact equality. MySQL collations (case and accent folding) are not modelled.
- Pydantic validation of the records (types and coercion) is not modelled. A key read with `[...]` is assumed present with the right type, so `KeyError` and `TypeError` on those reads are not modelled. Keys read with `.get` are modelled as absent, null or present.
- The records are typed datatypes with the keys the scrapers read, not arbitrary JSON, except in the Magnit catalogue. The Magnit catalogue reads a flat JSON list and is modelled on JSON values.
- MagnitCatalogue.GetParents: Python's recursion limit is not modelled. A chain of parents longer than the limit succeeds in the model; a real cycle fails with `RecursionError` in both.
- MagnitCatalogue.ReadDetails: its contract states only that the name is stripped. Its error cases (a missing key, a non-index value, an index out of range, a parent key whose tail is not an integer) are in its body, and `CollectedSucceeds` and `CollectedFailurePersists` state how they end the collection.
- `\d` and `int()` are restricted to ASCII digits. Python also accepts other Unicode digits and `_` separators inside `int()`.
- The Pyaterochka catalogue builds its categories with an `inner_code` field that the shared `Category` record does not have. It is modelled as its own `InnerCategory` record.
- Floating-point prices and ratings are Dafny reals, with no rounding.

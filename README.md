# olist feature tables in Dafny

A model of the two pieces of logic under the pandas and filesystem calls of
the olist e-commerce analysis package:

- **The data loader** (`Olist.get_data`, olist/data.py). The names in a
  directory listing are filtered to CSV files, and each name becomes a
  logical table name:
  - the suffix `_dataset.csv` is removed, or else the suffix `.csv`;
  - then the prefix `olist_` is removed.

  The names and files are then zipped into a dictionary of loaded tables.
  The listing and the reading of one file are parameters. `KeyNames` and
  `BuildData` are the two loops of the source: the first reassigns the key
  step by step, and the second fills the dictionary in place. `GetData`
  filters the listing and composes the two loops.
- **The per-order feature tables** (`Order`, olist/order.py). Each table is
  a sequence of records keyed by `order_id`, and a missing value (pandas'
  NaN/NaT) is `None`:
  - `get_wait_time` filters on status and derives day differences, with
    the delay clamped at zero;
  - `get_review_score` derives 0/1 flags;
  - `get_number_items` is a group count;
  - `get_number_sellers` is a left merge followed by a group distinct count;
  - `get_price_and_freight` is a group sum;
  - `get_training_data` is an inner-join chain followed by `dropna`.

  `GetWaitTime` and `GetReviewScore` fill their derived columns one after
  another over arrays, as the source assigns columns in place. The
  group-bys, merges and `dropna` are functions. The table map is passed in
  as a `Data` record instead of being loaded by `Order.__init__`.

Files:

- `wrappers.dfy`: `Option`.
- `loader.dfy`: module `Loader`.
- `relational.dfy`: module `Relational`, the pandas operations used:
  - group keys in first-occurrence order;
  - group count and group sum;
  - inner merge.
- `order.dfy`: module `Order`, the tables and the feature methods.
- `order_properties.dfy`: module `OrderProperties`, the properties of the
  feature tables.

Timestamps are integer seconds. A day value is the exact `real` quotient by
`24 * 3600`. Prices and freight values are exact `real`s.

## Model

| member | source | states |
|---|---|---|
| Loader.CsvFiles | olist/data.py:25 | A name is kept iff it is in the listing and ends in ".csv". The result is no longer than the listing. |
| Loader.CsvFilesConcat | olist/data.py:25 | The filter distributes over concatenation of listings. |
| Loader.CsvFilesSingleton | olist/data.py:25 | A one-name listing keeps its name iff the name ends in ".csv". With `CsvFilesConcat` this fixes the filter's order and multiplicity. |
| Loader.CsvFilesAround | olist/data.py:25 | A CSV name stays between the filtered names before it and the filtered names after it. |
| Loader.NonCsvDropped | olist/data.py:25 | Removing a non-CSV name from anywhere in the listing leaves the filtered list unchanged. |
| Loader.NonCsvIgnored | olist/data.py:25 | A name not ending in ".csv" leaves the resulting dictionary unchanged, wherever it stands in the listing. |
| Loader.RemoveAll | olist/data.py:33-35 | `str.replace(p, '')` never lengthens its argument. |
| Loader.RemoveAllShrinks | olist/data.py:33-35 | When the pattern occurs, the result is at least one pattern length shorter. |
| Loader.RemoveAllAbsent | olist/data.py:33-35 | When the pattern does not occur, the string is unchanged. |
| Loader.RemoveLeading | olist/data.py:33-35 | Take an unbordered pattern p and a stem with no occurrence of p. Removing p from stem + p + rest keeps the stem and removes p from rest. |
| Loader.RemoveTrailing | olist/data.py:33-35 | Removing an unbordered pattern from stem + pattern gives the stem back, provided the stem holds no occurrence of it. |
| Loader.StripOlistPrefix | olist/data.py:37-38 | `StripOlist` removes exactly one leading "olist_": "olist_" + k becomes k. |
| Loader.DatasetFileKey | olist/data.py:31-38 | `DeriveKey`: "<stem>_dataset.csv" keys to the stem with a leading "olist_" removed, when the stem holds no occurrence of "_dataset.csv". The "_dataset.csv" rule wins over the ".csv" rule. |
| Loader.CsvFileKey | olist/data.py:31-38 | `DeriveKey`: a "<stem>.csv" name that does not end in "_dataset.csv" keys to the stem with a leading "olist_" removed, when the stem holds no occurrence of ".csv". |
| Loader.KeyShorter | olist/data.py:31-35 | `DeriveKey` makes the key of every CSV name strictly shorter than the name. |
| Loader.SellersKey | olist/data.py:29-40 | "olist_sellers_dataset.csv" keys to "sellers". |
| Loader.OrderItemsKey | olist/data.py:29-40 | "olist_order_items_dataset.csv" keys to "order_items". |
| Loader.TranslationKey | olist/data.py:29-40 | "product_category_name_translation.csv" keys to "product_category_name_translation". |
| Loader.EveryOccurrenceRemoved | olist/data.py:33-35 | Every occurrence is deleted, not only the trailing one: "x.csv.csv" keys to "x". |
| Loader.PrefixStrippedOnce | olist/data.py:37-38 | The prefix is dropped once, as six characters: "olist_olist_x.csv" keys to "olist_x". |
| Loader.SuffixBeforePrefix | olist/data.py:31-38 | The suffix step comes first: "olist_dataset.csv" keys to "olist". |
| Loader.KeyNames | olist/data.py:28-40 | The loop returns one key per file, and the i-th key is the key rule applied to the i-th file. |
| Loader.ZipToMap | olist/data.py:43-46 | The dictionary's keys are exactly the keys of the zipped pairs, up to the shorter list. |
| Loader.BuildData | olist/data.py:43-46 | The filling loop yields the zipped dictionary. |
| Loader.LastFileWins | olist/data.py:43-46 | A key maps to the file of its last pair. |
| Loader.GetData | olist/data.py:25-48 | The result is `Loaded` of the listing. Its key set is the set of keys of the CSV names in the listing. |
| Loader.LoadedKeys | olist/data.py:25-46 | The key set of `Loaded` is the set of keys of the CSV names. |
| Loader.LoadedLastWins | olist/data.py:43-46 | `Loaded`: the i-th CSV file is the one loaded under its key, unless a later CSV file derives the same key. |
| Loader.ListedFileWins | olist/data.py:25-46 | `Loaded`: a CSV name at position i of the listing is the one loaded under its key, unless a later CSV name derives the same key. |
| Loader.SellersDirectory | olist/data.py:25-46 | A listing of only "olist_sellers_dataset.csv" gives exactly {"sellers": load of that file}. |
| Relational.Dedup | olist/order.py:82 | Group keys: the result is duplicate-free and holds exactly the elements of the input. |
| Relational.CountKeyPositive | olist/order.py:82 | A key that occurs has a group count of at least 1. |
| Relational.CountsOverAll | olist/order.py:82 | Over distinct keys that cover every row, the group counts add up to the row count. |
| Relational.SumsOverAll | olist/order.py:108 | Over distinct keys that cover every row, the group sums add up to the column total. |
| Relational.Matches | olist/order.py:194-198 | The pairs of one left row: as many as right rows with the key, and exactly those pairs. |
| Relational.InnerJoin | olist/order.py:194-198 | A pair is in the inner merge iff its left row and right row are in their tables and share the key. |
| Relational.InnerJoinCount | olist/order.py:194-198 | The merge has (left count) × (right count) rows of each key. |
| Order.DaysBetween | olist/order.py:40-53 | Present iff both timestamps are present. The value times 86400 is the difference in seconds. |
| Order.ClampAtZero | olist/order.py:55 | Present iff the input is present. The value is non-negative, at least the input, and either the input or 0. |
| Order.Delivered | olist/order.py:24-25 | A row is kept iff it is an order row with status "delivered". |
| Order.GetWaitTime | olist/order.py:22-57 | The column-by-column fill equals the wait-time table of the filtered orders. |
| Order.ReviewScoreFeatures | olist/order.py:65-72 | Keeps order_id and score. Five-star flag is 1 iff the score is 5, one-star flag is 1 iff it is 1. Both flags are in {0,1} and never both 1. |
| Order.GetReviewScore | olist/order.py:64-74 | The column-by-column fill equals the review table. |
| Order.MergeItem | olist/order.py:93 | In `LeftMerge`, each item gets at least one row, and every such row carries that item. |
| Order.NumberItemsRows | olist/order.py:81-82 | One row per group key, carrying the number of item rows with that key. |
| Order.NumberSellersRows | olist/order.py:93-99 | One row per group key, carrying the number of distinct seller_ids among the merged rows with that key. |
| Order.PriceFreightRows | olist/order.py:107-108 | One row per group key, carrying the price and freight_value sums of the item rows with that key. |
| Order.DropNa | olist/order.py:202 | A row is kept iff it is a row of the input with no missing value. |
| Order.TrainingData | olist/order.py:185-204 | No training row has a missing value. |
| OrderProperties.WaitTimeDelivered | olist/order.py:24-25 | `WaitTimeTable`: with is_delivered, every row has status "delivered". Every delivered order row's features appear. |
| OrderProperties.WaitTimeAllOrders | olist/order.py:22-24 | `WaitTimeTable`: without is_delivered, there is one row per order row, in order, with the same order_id and status. |
| OrderProperties.DelayIsClampedLateness | olist/order.py:40-55 | `WaitTimeFeatures`: with the timestamps present, delay_vs_expected = max(0, wait_time − expected_wait_time). It is 0 iff delivery was not after the estimate. |
| OrderProperties.MissingTimestampKeepsRow | olist/order.py:40-55 | A missing delivery date gives missing wait_time and delay, and the row stays. |
| OrderProperties.WaitTimeRowOrigin | olist/order.py:22-57 | Every `WaitTimeTable` row is the `WaitTimeFeatures` of an order row, which is delivered when is_delivered is set. |
| OrderProperties.WaitTimeRowKey | olist/order.py:24-25 | A filtered wait-time row is "delivered", and its order_id is an order's. |
| OrderProperties.WaitTimeScenario | olist/order.py:40-57 | Delivery after 4 days against an estimate of 9 gives 4.0, 9.0 and 0.0. |
| OrderProperties.ReviewScoreRows | olist/order.py:64-74 | `ReviewScoreTable`: one row per review row, in order, with no deduplication. The flags follow the score. |
| OrderProperties.ReviewRowOrigin | olist/order.py:64-74 | Every `ReviewScoreTable` row is the `ReviewScoreFeatures` of a review row. |
| OrderProperties.ReviewRowKey | olist/order.py:64-74 | A review-score row's order_id is a review's. |
| OrderProperties.ItemGroupsKeys | olist/order.py:82 | The group keys are distinct, and they are exactly the order_ids of the item rows. |
| OrderProperties.ItemsInGroups | olist/order.py:82 | Every item row's order_id is a group key. |
| OrderProperties.NumberItemsGroups | olist/order.py:81-82 | `NumberItems`: each order_id of the items appears once, with the number of its item rows, which is ≥ 1. |
| OrderProperties.NumberItemsRowKey | olist/order.py:81-82 | A `NumberItems` row's order_id is an item's. |
| OrderProperties.NumberItemsTotal | olist/order.py:81-82 | The number_of_items column adds up to the number of item rows. |
| OrderProperties.LeftMergeSellers | olist/order.py:93-96 | After `LeftMerge`, an order's seller_id set is the seller_id set of its item rows. |
| OrderProperties.LeftMergeGroups | olist/order.py:93-97 | `LeftMerge` keeps the order_id groups and their order. |
| OrderProperties.NumberSellersIgnoresSellers | olist/order.py:91-99 | The result does not depend on the contents of the sellers table. |
| OrderProperties.SellersAtMostItems | olist/order.py:91-99 | An order has at most as many distinct sellers as item rows, and at least one if it has an item. |
| OrderProperties.NumberSellersGroups | olist/order.py:91-99 | `NumberSellers`: each order_id appears once. Its count is the number of distinct seller_ids among its items, between 1 and its item count. |
| OrderProperties.PriceAndFreightGroups | olist/order.py:107-108 | `PriceAndFreight`: each order_id appears once, with its price and freight_value group sums. |
| OrderProperties.PriceAndFreightTotals | olist/order.py:107-108 | Summed over orders, price and freight_value equal the item column totals. |
| OrderProperties.JoinedRowParts | olist/order.py:194-198 | A `JoinedFeatures` row pairs rows of all five feature tables that share one order_id. |
| OrderProperties.JoinedRowSources | olist/order.py:194-198 | The flattened row of a `JoinedFeatures` row is "delivered". Its order_id occurs in the orders, reviews and items. |
| OrderProperties.TrainingRowOrigin | olist/order.py:194-204 | Every training row is the `Flatten` image of a `JoinedFeatures` row. |
| OrderProperties.JoinedRowComplete | olist/order.py:194-202 | A merged row of an order with all timestamps present and all reviews scored has no missing value. |
| OrderProperties.TrainingRowsFromAllTables | olist/order.py:194-202 | Every training row is "delivered" and complete. Its order_id occurs in the orders, reviews and items. |
| OrderProperties.TrainingFlagsIgnored | olist/order.py:185-204 | Neither is_delivered nor with_distance_seller_customer changes the result. |
| OrderProperties.NoReviewNoTrainingRow | olist/order.py:194-195 | An order without a review row has no training row. |
| OrderProperties.DeliveredKeepsCount | olist/order.py:25 | The status filter keeps every row of an order whose rows are delivered. |
| OrderProperties.DropNaKeepsCount | olist/order.py:202 | dropna keeps every row of an order whose rows are complete. |
| OrderProperties.FeatureCounts | olist/order.py:22-108 | Take an order that appears once, whose rows are delivered, and that has an item. It has one wait-time row, one review-score row per review, and one row in each item-group table. |
| OrderProperties.GroupCounts | olist/order.py:82-108 | An order with an item has exactly one row in each of the three item-group tables. |
| OrderProperties.JoinedCount | olist/order.py:194-198 | An order that appears once, whose rows are all delivered, and that has an item and k reviews, has exactly k merged rows. |
| OrderProperties.ReviewFanOut | olist/order.py:194-202 | If moreover the order's timestamps are all present and its k reviews are all scored, it has exactly k training rows. |

## Left out

- Paths and I/O are not modelled: `os.path` path building, `os.listdir` and `pd.read_csv` (olist/data.py:13-25, 46). The listing and the file reader are parameters.
- `ping` only prints, so it is not modelled.
- `Order.__init__` loading the tables is not modelled; the tables are passed in.
- `pd.to_datetime` parsing (olist/order.py:35-37) is not modelled: timestamps arrive as integer seconds or are missing. The approved and carrier dates are carried but never used, as in the source.
- `get_distance_seller_customer` is left out. olist/utils (haversine_distance) is not part of this model, the distance uses floating-point trigonometry, and `GroupBy.first()` semantics are not visible. The training data never merges it in anyway.
- Relational.Dedup: pandas `groupby` sorts the group keys, while the model lists them in first-occurrence order. So the contents of the group tables are modelled, but not their row order.
- Order.DaysBetween: the day values are exact reals, not 64-bit floats; rounding is not modelled.
- Missing values: prices and freight values are never missing, and `seller_id` is never missing, so `nunique` dropping NaN does not arise. A review's score may be missing. Order status is never missing.
- `order_id` is never missing. pandas `groupby` drops rows whose key is NaN, and `merge` matches NaN keys with each other; the model's `string` key rules out both.
- Loader.CsvFiles: its own contract states membership and the length bound only. Order and multiplicity follow from `CsvFilesConcat` with `CsvFilesSingleton`.
- A missing table or column (pandas `KeyError`) is not modelled: every table of the `Data` record is present with its columns.
- pandas index handling, column order and dtypes are not modelled. The model keeps only row and field contents.
- Rows of the sellers table beyond `seller_id` and the zip code prefix are not modelled; none of the modelled methods reads them.
- The input frames are never modified, since every method works on a `.copy()`. So the functional model does not state separately that the feature methods leave `self.data` unchanged.

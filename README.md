# Order ingest core, modelled in Dafny

This project models the core of a small order-ingest service. The service
receives a text file of fixed-width order records, one per line, and
decodes each line into an `Order`. It keeps the orders it accepts and one
error message for each line it rejects. It then merges the accepted orders,
by order id, into a persisted list. Queries filter that list by order id
and by a date range.

The project has these modules:

- `Wrappers` (`wrappers.dfy`): `Option` and `Result`.
- `JsString` (`js_string.dfy`): the JavaScript string operations the
  source relies on, written out:
  - `trim` with the JavaScript whitespace set;
  - `substring` with its clamping and argument swapping;
  - `replace(/^0+/, '')` and `replace(',', '.')`;
  - string `<=`;
  - the decimal rendering of a number.
- `OrderModel` (`order.dfy`): the `Order` record.
- `OrderProcessing` (`order_processing.dfy`): the line decoder
  `processString`, with `formatDecimal` and `formatDate`. It also holds an
  encoder, which is the decoder's inverse on well-formed orders.
- `OrderStorage` (`order_storage.dfy`):
  - the merge-by-id and filter specification;
  - the `OrderStore` class. Its fields stand for the orders file: whether
    it exists, and the list it holds. A ghost log of every batch it was
    given records how often the ingest step calls it.
- `OrdersService` (`orders_service.dfy`):
  - the batch specification: the per-line verdicts, the accepted orders
    and the numbered error messages;
  - the `OrdersServiceImpl` class. Its `ProcessFile` loop is proved
    against that specification.

The three service files have different forms:

- The decoder is pure and is modelled by functions.
- `addOrders` and `processFile` mutate arrays in loops. `processFile` is the
  class method `ProcessFile`, with its loop. The `forEach` loop of
  `addOrders` is the method `UpsertAll`, which the class method `AddOrders`
  calls. Their `ensures` clauses tie the result and the new state to the
  specification functions `Merge` and `Ingest`.
- The filter chain of `getFilteredOrders` is pure. It is the function
  `Query`, proved equal to the reference selection `Select`.

`OrdersServiceImpl` receives its line decoder the way the service receives
its injected processing service: as a constant field. The constructor sets
it to `Decode`. `ProcessFile` is proved for whatever decoder the field
holds.

Three behaviours of the code deserve a plain statement:

- `addOrders` writes the file even for an empty batch: `addOrders([])`
  creates it. `ProcessFile` never makes that call, because it calls the
  store only when some line was accepted.
- The ten-zero test is the only all-zero check on the product column. A
  column that trims to exactly ten zeros becomes `"0"` and is rejected. Any
  other column of zeros and spaces goes through strip-then-trim. It is
  rejected only when that leaves `""` or `"0"`. So `"00000000 0"` is
  rejected as `"0"` and `"000000000 "` is rejected as empty. But
  `"00 0000000"` passes, with product id `"0000000"`: see
  `ProductZerosAroundSpaces`.
- `addOrders` reads, merges and writes the file with no atomicity
  guarantee. The model's failure case leaves the store unchanged. A
  partially written file is not modelled.

## Model

| member | source | states |
|---|---|---|
| OrderProcessing.Decode | src/services/order.processing.service.ts:6-45 | The line is rejected with "Formato de linha inválido" exactly when some normalised field is empty or the product id is "0". It is rejected with "Formato de data inválido" exactly when the guard passes but the date is not 8 characters. No other error occurs. Every accepted order is well shaped: non-empty ids, name, product id other than "0" and value, and a 10-character date with '-' at 4 and 7. |
| OrderProcessing.ExtractedFieldsFit | src/services/order.processing.service.ts:7-17 | Every extracted field is trimmed and no longer than its column: 10, 45, 10, 10, 12 and 8 characters. |
| OrderProcessing.KeyFieldShape | src/services/order.processing.service.ts:10-15 | An identifier field (leading zeros stripped, then trimmed) and the product id field are trimmed and no longer than their column. |
| OrderProcessing.FormatDecimal | src/services/order.processing.service.ts:47-50 | The length is kept. Only the first ',' becomes '.'. Every other character is unchanged. A comma-free value comes back unchanged. |
| OrderProcessing.FormatDate | src/services/order.processing.service.ts:52-59 | It fails, with "Formato de data inválido", exactly when the length is not 8. On success the result is dashed at 4 and 7, and removing the dashes gives back the input. |
| OrderProcessing.DecodedFields | src/services/order.processing.service.ts:7-17 | On success, each field is its column of the trimmed line. The ids have leading zeros stripped and are then trimmed. Name, value and date are trimmed. The value has its first ',' replaced. The date is the dashed column. |
| OrderProcessing.EmptyFieldRejected | src/services/order.processing.service.ts:19-33 | Any empty field after normalisation gives the line-format error. |
| OrderProcessing.TenZeroProductRejected | src/services/order.processing.service.ts:13-23 | A product column that trims to ten zeros gives the line-format error, whatever the other fields hold. |
| OrderProcessing.ShortLineRejected | src/services/order.processing.service.ts:10-33 | A trimmed line of at most 87 characters gives the line-format error. Slicing is clamped and never fails. |
| OrderProcessing.ShortDateIsDateError | src/services/order.processing.service.ts:19-43 | A trimmed line that ends inside the date column has a short non-empty date. If the other fields pass the guard, it gives the date-format error, not the line-format error. |
| OrderProcessing.DecodeIgnoresSurroundingWhitespace | src/services/order.processing.service.ts:7 | Decoding a line and decoding its trimmed text give the same result. |
| OrderProcessing.WhitespaceShieldsZeros | src/services/order.processing.service.ts:10-12 | An id column that starts with whitespace keeps its leading zeros, because zeros are stripped before trimming. |
| OrderProcessing.ProductZerosAroundSpaces | src/services/order.processing.service.ts:13-23 | Take a ten-character product column of zeros, then at least one space, then zeros. Its product id is the trailing zeros alone. It passes the guard exactly when there are at least two trailing zeros. With one it reads as "0", and with none it is empty. |
| OrderProcessing.DecodeEncode | src/services/order.processing.service.ts:6-45 | Take an order whose fields fit their columns: ids without a leading zero, trimmed texts, a comma-free value and a dashed date. Decoding its fixed-width line gives back that order. |
| OrderProcessing.SampleLine | test/order-processing.service.spec.ts:20-31 | A sample line from the test suite decodes to user 83, "Frances Satterfield", order 791, product 6, value 224.75, dated 2021-11-22. |
| OrderModel.ProdIdNumber | src/services/order.processing.service.ts:41 | The product id has a numeric reading exactly when it is all decimal digits. Leading zeros do not count: when something is left after stripping them, the reading is at least 1 and its decimal rendering is exactly what is left. When nothing is left, the reading is 0. |
| OrderModel.DigitsIgnoreLeadingZeros | src/services/order.processing.service.ts:41 | An all-digit string denotes the same number as the string with its leading zeros stripped, and the number is 0 exactly when nothing is left. |
| OrderModel.ZeroProductReadsAsZero | src/services/order.processing.service.ts:41 | A product id made only of zeros, such as one that got past the ten-zero test, reads as 0. |
| JsString.DecimalStringOfDigits | src/services/order.processing.service.ts:41 | A run of decimal digits with no leading zero is the decimal rendering of its value, and that value is at least 1. |
| JsString.Trim | src/services/order.processing.service.ts:7-17 | The result is no longer than the input and has no whitespace at either end. It is empty exactly when the input is all whitespace. |
| JsString.TrimMiddle | src/services/order.processing.service.ts:7-17 | The result of trimming is the slice of the input that starts right after the leading whitespace. Everything before and after that slice is whitespace. |
| JsString.Substring | src/services/order.processing.service.ts:10-17 | The result is the slice between the bounds, clamped to the string's length. It is empty when both bounds are past the end. When the first bound is the larger one, the bounds are swapped. It is never longer than the string or the distance between the bounds. |
| JsString.StripLeadingZeros | src/services/order.processing.service.ts:10-15 | The result is a suffix of the input. Only '0' characters are removed, and the result does not start with '0'. |
| JsString.ReplaceFirst | src/services/order.processing.service.ts:49 | The length is kept. If the character occurs, only its first occurrence is replaced. Otherwise the string is unchanged. |
| JsString.LexLeMeaning | src/services/order.storage.service.ts:73-77 | String `<=` holds exactly when the first string is a prefix of the second, or the first position where they differ holds a smaller character in the first. |
| OrderStorage.FindIndex | src/services/order.storage.service.ts:35-37 | The result is -1 exactly when the id is absent. Otherwise it is the first position holding that id. |
| OrderStorage.Upsert | src/services/order.storage.service.ts:35-44 | The length is kept when the id is stored. It grows by one when the id is new. |
| OrderStorage.Merge | src/services/order.storage.service.ts:34-45 | The merged list is at least as long as the stored list. It is at most longer by the batch's length. |
| OrderStorage.UpsertReplaces | src/services/order.storage.service.ts:38-40 | A batch order whose id is stored replaces the first entry with that id, at the same position. The length and every other entry are unchanged. |
| OrderStorage.UpsertAppends | src/services/order.storage.service.ts:41-43 | A batch order with an unseen id is appended at the end. |
| OrderStorage.MergeShape | src/services/order.storage.service.ts:34-45 | The merge keeps the id at every old position. Stored entries whose id is not in the batch keep their value and position. Ids added at the end come from the batch. Every batch id is present afterwards. |
| OrderStorage.MergeHoldsLast | src/services/order.storage.service.ts:34-45 | After the merge, the first entry for each batch id is the last batch order with that id. |
| OrderStorage.MergeKeepsDistinct | src/services/order.storage.service.ts:34-45 | If the stored ids were pairwise distinct before the merge, they are distinct after it. |
| OrderStorage.MergeIdempotent | src/services/order.storage.service.ts:34-45 | Merging the same batch twice gives the same list as merging it once. |
| OrderStorage.UpsertAll | src/services/order.storage.service.ts:34-45 | The loop that replaces or appends each batch order computes exactly the reference merge of the stored list with the batch. |
| OrderStorage.OrderStore.AddOrders | src/services/order.storage.service.ts:18-50 | The merged list is the reference merge of the loaded list (empty when there is no file) with the batch. On success the file then exists and holds that merge. When the file system fails, nothing changes. Every call is logged. The store stays valid: no file holds no orders, and stored ids stay pairwise distinct. |
| OrderStorage.SelectMembers | src/services/order.storage.service.ts:67-78 | An order is selected exactly when it is stored and meets every criterion. |
| OrderStorage.SelectIntersection | src/services/order.storage.service.ts:67-78 | Selecting by a list of criteria keeps what selecting by each part keeps. The filters combine by AND. |
| OrderStorage.QueryByIdAtMostOne | src/services/order.storage.service.ts:67-78 | In a list with distinct ids, a query with an order id returns at most one order. |
| OrderStorage.QueryWindowOrdered | src/services/order.storage.service.ts:71-78 | When both dates are given and some order is returned, the start is at most the end in string order. |
| OrderStorage.QuerySingleDay | src/services/order.storage.service.ts:71-78 | With the same day as start and end, an order is returned exactly when it is stored, is dated that day and has the requested id, if one is given. |
| OrderStorage.CriteriaMeaning | src/services/order.storage.service.ts:67-78 | An argument constrains only when it is given and non-empty. The order id must then be equal, and the date must be at least the start and at most the end, in string order. |
| OrderStorage.Query | src/services/order.storage.service.ts:67-78 | The filter chain, in the source's order, returns the order-preserving subsequence of the list that meets every active criterion. |
| OrderStorage.QueryMembers | src/services/order.storage.service.ts:67-78 | An order is returned exactly when it is stored and passes every active filter. |
| OrderStorage.QueryUnfiltered | src/services/order.storage.service.ts:67-78 | With every argument absent or empty, the whole list comes back in stored order. |
| OrderStorage.QueryAfterMerge | src/services/order.storage.service.ts:34-78 | Merge a batch into a list with distinct ids. A query for a batch id then returns exactly one order: the last batch order with that id. |
| OrderStorage.OrderStore.GetFilteredOrders | src/services/order.storage.service.ts:52-82 | With no file the result is empty. Otherwise it is the reference selection of the stored list. An order is returned exactly when it is stored and matches every active filter. In a valid store, a query with an order id returns at most one order. |
| OrdersService.ErrorMessageShape | src/services/orders.service.ts:29 | The message starts with "Linha " and ends with the decoder's message. |
| OrdersService.ErrorMessageLineNumber | src/services/orders.service.ts:29 | The 1-based line number can be read back from the message it starts. |
| OrdersService.ListsGrowByLine | src/services/orders.service.ts:21-33 | Processing never stops early. The lists for the first i+1 lines are those for the first i lines plus line i's outcome: its order, or one error message numbered i+1 that quotes the line. |
| OrdersService.AcceptedLines | src/services/orders.service.ts:21-26 | An order is accepted exactly when some line decodes to it. |
| OrdersService.ErrorLines | src/services/orders.service.ts:27-31 | A message is in the error list exactly when some line fails to decode and the message numbers and quotes that line with the decoder's message. |
| OrdersService.Ingest | src/services/orders.service.ts:16-33 | Accepted orders plus error messages number exactly the lines. |
| OrdersService.AcceptedWellShaped | src/services/orders.service.ts:21-26 | With this system's decoder, every accepted order is well shaped. |
| OrdersService.OrdersServiceImpl.constructor | src/services/orders.service.ts:8-11 | The service's injected line decoder is `Decode`, and its store is the given store. |
| OrdersService.OrdersServiceImpl.ProcessFile | src/services/orders.service.ts:13-43 | The loop computes exactly the accepted list and the error list of the specification. The store is called once, with the accepted orders, exactly when that list is non-empty. Otherwise the store is untouched. A storage failure is returned as a failure, never recorded as a line error. On success the store holds the merge. |
| OrdersService.OrdersServiceImpl.GetFilteredOrders | src/services/orders.service.ts:45-58 | The result is, unchanged, the store's answer to the same three arguments. In a valid store, a query with an order id returns at most one order. |

## Left out

- File system and JSON: `existsSync`, `mkdirSync`, `readFileSync`, `writeFileSync`,
  `JSON.parse` and `JSON.stringify` are replaced by the store's two fields. A file
  that does not parse is not modelled.
- `ensureDirectoryExistence`: creating the data directory has no effect on the list
  and is not modelled.
- File-system failure: it is a boolean argument `ioFails`. A failure stops
  `addOrders` before it writes. A partially written file is not modelled.
- `Number` and `parseFloat`: the product id and the value stay as the normalised
  text the decoder produces. `ProdIdNumber` reads only all-digit product ids.
  Floating point, `NaN`, signs, and the hexadecimal and exponent forms of `Number`
  are not modelled.
- `async`/`await`: every call runs to completion in order. Concurrent writers of
  the orders file are not modelled.
- `console.log` and `console.error`: logging only.
- Non-`Error` exceptions: `processFile` would drop them silently. The decoder
  throws only `Error`s, so the model has no such case.
- Text encoding: JavaScript strings are UTF-16 code units, and the model's strings
  are sequences of Unicode scalar values. Slicing, trimming and `<=` agree for text
  in the Basic Multilingual Plane. They are not modelled for characters outside
  it.
- `src/controllers/orders.controller.ts` is not part of this model: HTTP routing,
  upload handling, status codes and its blank-line filter. `ProcessFile` accepts
  blank lines and reports them as line-format errors, as `processFile` does.
- `src/app.module.ts` is not part of this model: dependency-injection wiring. Its
  one effect, which decoder the service uses, is the `OrdersServiceImpl`
  constructor's contract.
- OrdersService.OrdersServiceImpl.ProcessFile: the contract is stated for the
  injected decoder, which the constructor fixes to `Decode`. It is not re-stated
  for `Decode` inside the method.

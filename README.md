# material-table: the mock query engine and the table's URL state

This project models the logic of a demo data-table app. The app has three
parts:

- a mock backend, `getData`, that filters, sorts and pages an in-memory
  array of 240 generated `Skater` records;
- a server-controlled table that keeps its page, page size, sort, order and
  filters in the URL query string;
- an index page that turns the URL's `page` and `items` into `limit` and
  `offset` and works out the page count.

Modules:

- `Wrappers`: `Option`.
- `Strings`: JavaScript string `<`, `toLowerCase` and `includes`.
- `Records`: the `Skater` record, its fields as a closed enumeration with one
  accessor each, and the values that get compared.
- `Query`: the filter, the sort comparator and what a sorted result must
  satisfy, and `slice`.
- `DataStore`: `range`, `makeData`, the module-level `data` array as a class
  that owns an `array`, an in-place sort, and `getData`.
- `Numbers`: `String(n)` and `Number(s)` for decimal integers.
- `UrlParams`: URLSearchParams `get`/`getAll`/`set`/`delete`, following
  section 6.2 of the WHATWG URL Standard, and `createQueryString`.
- `TableUrl`: the table's URL defaults, sorting state, header clicks,
  pagination and filter updates.
- `PageRoute`: `limit`, `offset`, the page count and the forwarding to
  `getData`.

Behaviours worth knowing, all modelled as the code is written:

- When no query is given, the filtered array *is* the shared dataset.
  `.sort` then reorders that shared array in place, and later calls see the
  new order (`SkaterStore.GetData`, `LaterCallSeesNewOrder`).
- The default sort direction is descending. Only `order === "asc"` sorts
  ascending.
- The comparator never answers 0 for two equal keys (a row compared with
  itself gets -1), and answers 0 whenever either row lacks the field. It is
  therefore never a consistent comparator in the sense of the ECMAScript
  definition of `Array.prototype.sort`, and the standard leaves the order
  implementation-defined. The contracts say what engine sorts that decide
  only by the comparator's sign produce: "a permutation of the filtered rows
  in which any two rows having the field are in key order", with ties and
  rows lacking the field in no fixed place.
- Without a `page` parameter the offset is 1, not 0, so the first record is
  skipped (`AbsentPageSkipsFirstRecord`).

## Model

| member | source | states |
|---|---|---|
| Records.FieldNamed | src/lib/get-data.ts:54 | a sort string names a field only if it is that field's own key name |
| Records.Values | src/lib/get-data.ts:3-12 | `Object.values(row)` has 8 values, or 7 without `createdAt`, and none is missing |
| Records.KeyOf | src/lib/get-data.ts:76 | `row[sort]` is missing exactly for an absent `createdAt`; exactly id, name, email and stance are strings |
| Records.AtMostIffNotGreater | src/lib/get-data.ts:79-81 | on two present values of one kind, the sort preorder holds exactly when JavaScript's `>` does not |
| Records.FieldNamedRoundTrip | src/lib/get-data.ts:3-12 | every field's key name names that field |
| Records.KeysOfOneFieldSameKind | src/lib/get-data.ts:3-12 | two rows' present values of one field are both strings or both numbers |
| Records.AtMostTotal | src/lib/get-data.ts:75-83 | any two field values are comparable |
| Records.AtMostTransitive | src/lib/get-data.ts:75-83 | the order on field values is transitive |
| Strings.AtMostIffNotGreater | src/lib/get-data.ts:79-81 | character-by-character string order equals "not greater" under JavaScript's `<` (prefix or first difference) |
| Strings.AtMostTotal | src/lib/get-data.ts:75-83 | any two strings are comparable |
| Strings.AtMostTransitive | src/lib/get-data.ts:75-83 | the string order is transitive |
| Strings.Lower | src/lib/get-data.ts:67 | lower-casing keeps the length, leaves no ASCII capital, keeps every other character, and changes a character at most in its case |
| Strings.LowerCharSame | src/lib/get-data.ts:67 | two characters lower-case alike exactly when they differ at most in ASCII case |
| Strings.LowerSameIffUpToCase | src/lib/get-data.ts:67 | two strings lower-case to the same string exactly when they differ only in the case of ASCII letters, which makes the search case-insensitive |
| Strings.IncludesIffOccurs | src/lib/get-data.ts:67 | `includes` holds exactly when the needle occurs at some index |
| Query.AnyMatchesIff | src/lib/get-data.ts:65-70 | `.some` holds exactly when some value matches |
| Query.MatchesIffTextField | src/lib/get-data.ts:64-71 | a row matches exactly when a string field (id, name, email or stance) contains the query ignoring case; numbers and the date never match |
| Query.FilterByExact | src/lib/get-data.ts:63-72 | the filter keeps every matching row with its multiplicity and drops every other row (both directions) |
| Query.FilteredFalsy | src/lib/get-data.ts:63-72 | an absent or empty query keeps the whole dataset, so the count is the dataset size |
| Query.SortField | src/lib/get-data.ts:74-76 | a field is sorted on only if the truthy `sort` names it |
| Query.PrecedesTotal | src/lib/get-data.ts:75-83 | the sort order is total in both directions |
| Query.PrecedesTransitive | src/lib/get-data.ts:75-83 | the sort order is transitive in both directions |
| Query.MissingFieldAnywhere | src/lib/get-data.ts:76 | a row lacking `createdAt` compares 0 with a row that has it, so either order of the two counts as sorted, in both directions |
| Query.ComparatorTiesAnswerMinusOne | src/lib/get-data.ts:78-82 | two rows with the same present key, a row and itself included, are each answered -1 against the other |
| Query.SortedRespectsComparator | src/lib/get-data.ts:75-83 | in a sorted result no earlier row compares after a later one: nondecreasing for "asc", nonincreasing otherwise (the default) |
| Query.ComparatorAcceptsOnlySorted | src/lib/get-data.ts:75-83 | a sequence on which the comparator answers at most 0 for every earlier/later pair is sorted, so the sort contracts exclude no order the comparator accepts |
| Query.RelativeIndex | src/lib/get-data.ts:86 | `slice` clamps an index into the array, and an index already in range is kept |
| Query.SliceWindow | src/lib/get-data.ts:86 | for nonnegative offset and limit the page is `sorted[offset .. min(offset+limit, n))`, empty when `offset >= n`, of length `min(limit, n-offset)` otherwise |
| DataStore.Range | src/lib/get-data.ts:14-20 | `range(len)` yields `0 .. len-1` in order, and nothing for `len <= 0` |
| DataStore.MakeData | src/lib/get-data.ts:36-47 | `makeData(n)` returns exactly `n` generated records, and `makeData()` returns none |
| DataStore.SortInPlace | src/lib/get-data.ts:75-83 | `.sort` leaves a permutation of the array's rows in which any two rows having the field are in key order for the chosen direction |
| DataStore.InsertAt | src/lib/get-data.ts:75-83 | one insertion step extends the sorted prefix by one and keeps the same rows |
| DataStore.SkaterStore.constructor | src/lib/get-data.ts:49 | the module-level dataset holds the 240 generated records |
| DataStore.SkaterStore.GetData | src/lib/get-data.ts:51-92 | count is the filtered size and ignores limit and offset; the page is the slice of a permutation of the filtered rows in which rows having the sort field are in key order; with no query the shared array is left in the sorted order, otherwise unchanged |
| DataStore.LaterCallSeesNewOrder | src/lib/get-data.ts:72-75 | after an ascending sort with no query the shared data holds the same rows, those having the field in ascending key order, and a later call with neither query nor sort returns the rows in that new order |
| Numbers.DigitsRoundTrip | src/components/server-controlled-table.tsx:435-440 | the decimal digits of a natural number read back as that number |
| Numbers.ParseDecimalString | src/components/server-controlled-table.tsx:435-440 | `Number(String(n)) == n` for every integer printed in plain decimal (in JavaScript, magnitudes below 1e21) |
| UrlParams.FirstIndex | src/components/server-controlled-table.tsx:74 | the position `set` rewrites is the first pair with that name |
| UrlParams.ValuesNamedAppend | src/components/server-controlled-table.tsx:68-76 | `getAll` over two concatenated lists is the two results concatenated |
| UrlParams.DeleteSpec | src/components/server-controlled-table.tsx:71-72 | after `delete(name)` the name has no values and every other name keeps its values |
| UrlParams.SetSpec | src/components/server-controlled-table.tsx:73-74 | after `set(name, v)` the name has exactly `[v]` and every other name keeps its values |
| UrlParams.SetInPlace | src/components/server-controlled-table.tsx:74 | `set` on a present name rewrites its first pair in place, and the pairs before it are unchanged |
| UrlParams.EntryForDistinct | src/components/server-controlled-table.tsx:70 | with distinct keys, each entry gives the value for its key |
| UrlParams.ApplyEntriesSpec | src/components/server-controlled-table.tsx:66-81 | after applying the entries, each name holds nothing, `[String(v)]` or its old values, according to the entry for it |
| UrlParams.NullEntryDeletes | src/components/server-controlled-table.tsx:70-72 | every key whose value is null is absent from the result |
| UrlParams.ValueEntrySets | src/components/server-controlled-table.tsx:73-74 | every key with a non-null value appears exactly once, with `String(value)` |
| UrlParams.OtherKeysKept | src/components/server-controlled-table.tsx:68 | keys the params do not name keep their existing values |
| UrlParams.SearchParams.constructor | src/components/server-controlled-table.tsx:68 | the new object holds a copy of the current pairs |
| UrlParams.SearchParams.Set | src/components/server-controlled-table.tsx:74 | `set` replaces the object's pairs by the WHATWG `set` result |
| UrlParams.SearchParams.Delete | src/components/server-controlled-table.tsx:72 | `delete` replaces the object's pairs by the WHATWG `delete` result |
| UrlParams.CreateQueryString | src/components/server-controlled-table.tsx:66-81 | the result is the current pairs with every entry applied in order; the current object is not modified |
| TableUrl.ReadUrl | src/components/server-controlled-table.tsx:58-63 | missing `page`, `items` and `sort` default to "1", "10" and "email"; otherwise the first value is read |
| TableUrl.SortingStateFromUrl | src/components/server-controlled-table.tsx:182-187 | the sorting state is on the URL's sort (email by default) and `desc` is true exactly when order is "desc" |
| TableUrl.PageChangeRoundTrip | src/components/server-controlled-table.tsx:435-446 | moving to the 0-based page `p` writes `p + 1`, which reads back as index `p`; items, sort, order, email and stance are kept |
| TableUrl.PageIndexRoundTrip | src/components/server-controlled-table.tsx:435-440 | 1-based → 0-based → 1-based is the identity on the URL's page |
| TableUrl.RowsPerPageKeepsPage | src/components/server-controlled-table.tsx:449-460 | changing rows per page writes the new item count and keeps page, sort and order |
| TableUrl.SortableColumns | src/components/server-controlled-table.tsx:84-176 | of the table's columns exactly name, email, stats, stance and deckPrice can sort |
| TableUrl.HeaderClickSpec | src/components/server-controlled-table.tsx:381-395 | a sortable header click sets sort and order together or clears both; the page is kept; the sorting state a table mounting on the new URL derives is descending exactly for "desc"; a non-sortable column pushes nothing |
| TableUrl.FilterChangeResetsPage | src/components/server-controlled-table.tsx:221-296 | an email change, a stance check or clearing the stance resets page to "1" (index 0) and records the filter |
| PageRoute.PageCount | src/app/page.tsx:37 | `ceil(count/limit)`: for `limit > 0`, `(pc-1)*limit < count <= pc*limit` and `pc = 0` iff `count = 0`; mirrored for a negative limit; no finite value for a zero limit |
| PageRoute.PagesTile | src/app/page.tsx:21-37 | record `k` is at position `k % limit` of page `k / limit + 1`, which is within the page count |
| PageRoute.PageWithinCountIsNonEmpty | src/app/page.tsx:23-37 | for `1 <= page <= pageCount` the offset is below the count, so the page is not empty |
| PageRoute.AbsentPageSkipsFirstRecord | src/app/page.tsx:23 | without `page` the offset is 1, so the page starts at the second record, while page 1 starts at the first |
| PageRoute.IndexPage | src/app/page.tsx:18-37 | `limit` is `items` or 10, `offset` is `(page-1)*limit` or 1, sort/order/query reach `getData` unchanged, and the page count is `ceil(count/limit)` |

## Left out

- Record contents: the faker generator is a parameter, `draw`. `draw(i)` is the record produced by the i-th call. The value ranges faker uses and the uniqueness of ids are not modelled.
- The artificial latency (`setTimeout` in `getData` and in the page) is timing, not logic.
- `parseInt` and `Number` on malformed text. `page` and `items` are taken as already-parsed integers. `Number` covers only an optional minus sign followed by decimal digits, plus the empty string (0). Whitespace trimming, exponents, hexadecimal and fractions are not modelled.
- Numbers.DecimalString: JavaScript numbers are IEEE doubles, and the model uses unbounded integers. `String(n)` switches to exponent form from 1e21 (`"1e+21"`), where the model writes every digit. Sums and products such as `newPage + 1` and `(page - 1) * limit` are exact in JavaScript only up to 2^53. The model's arithmetic is exact everywhere.
- `toLowerCase` is modelled for ASCII letters only. String comparison uses code points, not UTF-16 code units, so characters outside the Basic Multilingual Plane can compare differently.
- A `sort` value naming an inherited property (for example "toString") passes `sort in row` in JavaScript. The model treats it as a name with no field, so it leaves the order unchanged.
- DataStore.SortInPlace: the engine's own sort algorithm is not modelled. The model's insertion sort puts rows lacking the field last, which the source does not do; the contracts promise only a permutation in which rows having the field are in key order, and say nothing about where the other rows stand.
- DataStore.SkaterStore.GetData: the key order it promises is not a promise of the ECMAScript standard. The comparator answers -1 for a row against itself and both ways for equal keys, so it is never consistent once the field is present, and the standard leaves the order implementation-defined for every sort. The contract states what engine sorts that decide only by the comparator's sign (such as V8's TimSort) produce: for this comparator a negative answer means the first key is at most the second. The one case where even such an engine breaks key order is a row lacking the field. It compares 0 with every row, and binary insertion then keeps ascending 5 / missing / 3 as it is, which the contract excludes. The generator always sets `createdAt`, so generated rows never lack a field.
- The URLSearchParams text form (`toString`, percent-encoding, and parsing it back) is not modelled. The copy and the result are kept as lists of name-value pairs.
- TableUrl.SortingState: in the table, the sorting state is React state initialised once when the table mounts and never updated. `SortingState` and the sorting state read back in `HeaderClickSpec` are the state the table derives when it mounts on that URL. After `router.push` the two agree only if the table mounts again.
- `router.push` navigation, `startTransition`, React state (the email filter input's own state), the debounced inputs, row selection, the clipboard and the delete action are UI or server effects with no logic to model.
- A checkbox's `e.target.value` is "on" in a browser, so the branch that writes the other stance is dead in practice. It is modelled as the code's truthiness test on whatever string the event carries.
- Wiring mismatches are not modelled. The page passes `pageCount` where the table reads `count`. The table writes `email` and `stance` parameters that the page never reads.
- The client-controlled table, the column definitions file, the dropdown, popover, header and layout components, and the number and date formatters are rendering or library code.
- A deletion interface that removes records is not modelled: the code never removes anything from the dataset.

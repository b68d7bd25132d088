# CROSSMALL export scripts, modelled in Dafny

The repository is a set of Python scripts. They pull orders, items, SKUs and
stock from the CROSSMALL web API, assemble them into XML trees, turn the trees
into CSV tables and upload files to Dropbox. This project models their logic
as Dafny values, functions and methods, and proves what the scripts promise:

- **Signed requests.** Every request URL is `base?query&signing=md5(query + key)`.
- **Retries.** The daily script retries with a constant pause. The date-range
  script retries with a pause that doubles each time.
- **Paginated order and item lists.** A page of 100 results asks for the next
  page, keyed by the last result's `order_number` or `item_code`.
- **Order trees.** One `<Order>` per order, with `<OrderDetail>` children. A
  detail without a JAN code gets a `<Components>` child from the component
  endpoint.
- **Item trees.** One item per fetched item, with `<Skus>`, and per SKU a
  `<Stock>`.
- **The CSV tables.** A stock table and an order-item table, read from the two
  trees, and the stock filter.
- **The three uploaders.**
  - The timestamping uploader puts `_YYYYMMDD_HHMMSS` before the extension.
  - The team-space uploader normalises the destination and sends two headers.
  - The user-root uploader uploads and then verifies the upload by listing,
    picking the latest stamp and comparing bytes.
- **The date-range driver.** It walks a date range, reports one status string
  per date and sums the statuses up.

Everything outside the scripts' own logic is a parameter of the model:

- HTTP replies: a script of `Response`s, or a function from request
  parameters to a `Reply`.
- The XML parser, MD5 and the clock.
- The Dropbox client and the file system.
- The environment variables.

Element trees are values (`Xml.Elem`). Appending to an element that a list
still refers to becomes an update at an index.

Modules:

| module | models |
|---|---|
| `Strings` | `strip`, `join`, `split`, `startswith`/`endswith`, string `<` |
| `Xml` | `ElementTree`: elements, `find`, `findtext`, `findall`, `.//` |
| `Signing` | signed request URLs |
| `Transport` | responses and retry traces |
| `ResultKeys` | keyed `Result` rows and the page size |
| `Paths` | `rfind`, `os.path.splitext`, `basename` |
| `Timestamps` | the `%Y%m%d_%H%M%S` stamp |
| `Json` | `json.dumps` of strings and dicts |
| `DailyOrders` | get_order_detail_component_parallel.py |
| `CustomdateOrders`, `CustomdateTree`, `CustomdateRun` | customdate_get_order_detail_component_parallel.py |
| `ItemsStock` | get_items_sku_stock_parallel.py |
| `CsvExport` | generate-csv.py |
| `SimpleUploader` | dropbox_uploader.py |
| `TeamspaceUploader` | dropbox_uploader_teamspace.py |
| `RootUploader` | db_user_root_uploader.py |

Each loop of the scripts is a `method` with a `while` loop. Each method is
proved equal to a specification function. The properties are proved about
that function as lemmas.

## Model

| member | source | states |
|---|---|---|
| Strings.TrimLeftMeaning | customdate_get_order_detail_component_parallel.py:123 | `lstrip` removes exactly the leading white space: what is left is a suffix that does not start with white space |
| Strings.TrimRightMeaning | customdate_get_order_detail_component_parallel.py:123 | `rstrip` removes exactly the trailing white space: what is left is a prefix that does not end with white space |
| Strings.StripMeaning | customdate_get_order_detail_component_parallel.py:123 | `strip()` is the piece after the leading white space; everything after it is white space; neither end of the piece is white space |
| Strings.StripEmptyIff | customdate_get_order_detail_component_parallel.py:208 | `text.strip()` is falsy exactly when the text is all white space |
| Strings.StripIdempotent | customdate_get_order_detail_component_parallel.py:123 | a stripped key strips to itself |
| Strings.IndexOf | customdate_get_order_detail_component_parallel.py:452 | the first separator position: no separator before it, a separator at it |
| Strings.Split | customdate_get_order_detail_component_parallel.py:452 | `split` always gives at least one piece |
| Strings.SplitJoin | customdate_get_order_detail_component_parallel.py:40 | `"&".join(parts)` split at `&` gives the parts back when no part contains `&` |
| Strings.SplitAtFirst | customdate_get_order_detail_component_parallel.py:452 | `split` cuts at the first separator |
| Strings.LexLessTotal | db_user_root_uploader.py:154 | string order is total and asymmetric, so the sort by name has one greatest name |
| Strings.LexLessIrreflexive | db_user_root_uploader.py:154 | no name sorts before itself |
| Strings.LexLessTrans | db_user_root_uploader.py:154 | string order is transitive |
| Strings.LexLessAppend | db_user_root_uploader.py:154 | strings with equal-length heads compare by the heads first, then by the rest |
| Xml.CopyChildren | customdate_get_order_detail_component_parallel.py:187-189 | the copy loop appends every child in order |
| Xml.FirstTaggedMeaning | generate-csv.py:10 | the position `find` uses: no earlier child has the tag, and the child at it has |
| Xml.FindInMeaning | generate-csv.py:10-12 | `find` is None exactly when no child has the tag, else it is the first child with the tag |
| Xml.FindText | generate-csv.py:15-16 | `findtext` is None exactly when `find` is; a non-empty result means the element has text |
| Xml.ChildrenTagged | generate-csv.py:9 | `findall` never returns more elements than there are children |
| Xml.ChildrenTaggedMeaning | generate-csv.py:9 | `findall(tag)` keeps exactly the direct children with the tag |
| Xml.DescendantsTagged | customdate_get_order_detail_component_parallel.py:106 | every element `findall(".//Result")` returns is a `Result` |
| Xml.DescendantsOfFlatList | customdate_get_order_detail_component_parallel.py:106 | on a flat reply, `.//Result` is the list of `Result` children |
| Signing.SignedUrl | customdate_get_order_detail_component_parallel.py:42-43 | the URL's length is the base, the query, `?`, `&signing=` and the signature |
| Signing.SignedUrlFields | customdate_get_order_detail_component_parallel.py:40-43 | the URL's query, split at `&`, is the request fields in order, then `signing=` and the digest of query + key |
| Signing.QueryOfAfter | customdate_get_order_detail_component_parallel.py:43 | the query of a URL is everything after the endpoint's `?` |
| Signing.SignedUrlDeterminesQuery | customdate_get_order_detail_component_parallel.py:26-28 | with a fixed-length digest, equal URLs for one endpoint carry equal queries |
| Transport.FirstAcceptedFrom | customdate_get_order_detail_component_parallel.py:52-56 | the first accepted attempt in a range: all earlier ones were rejected |
| Transport.FirstAccepted | get_order_detail_component_parallel.py:45-49 | the first accepted attempt among the first `n`: all earlier ones were rejected |
| ResultKeys.KeyOfMeaning | customdate_get_order_detail_component_parallel.py:121-123 | a key exists exactly when the first `order_number` child has non-empty text; it is that text stripped |
| Paths.Rooted | db_user_root_uploader.py:51-52 | a path with `/` put in front when missing starts with `/` |
| Paths.RFindMeaning | dropbox_uploader.py:30 | `rfind` is an occurrence with none after it, and -1 exactly when the character is absent |
| Paths.RFindAppend | dropbox_uploader.py:30 | appending text moves the last occurrence into it only when the text contains the character |
| Paths.SplitExt | dropbox_uploader.py:30 | `splitext` gives a stem and an extension that concatenate back to the path |
| Paths.SplitExtMeaning | dropbox_uploader.py:30 | the extension is empty, or a dot followed by neither dots nor slashes after a real stem |
| Paths.SplitExtOf | dropbox_uploader.py:30 | a stem followed by an extension splits back into the two |
| Paths.SplitExtNone | dropbox_uploader.py:30 | a path without an extension keeps none after text without `.` and `/` is appended |
| Paths.SplitExtInsert | dropbox_uploader.py:30-34 | inserting text without `.` and `/` before the extension keeps the extension |
| Paths.SplitExtUnderFolder | db_user_root_uploader.py:48 | under a folder, `splitext` splits the file name alone |
| Paths.BaseName | db_user_root_uploader.py:138-141 | a base name contains no `/` |
| Paths.BaseNameUnderFolder | db_user_root_uploader.py:138-141 | under a folder, the base name is the file name |
| Paths.SplitExtNoSlash | db_user_root_uploader.py:48 | a file name without `/` splits into a stem and an extension without `/` |
| Timestamps.Digits | dropbox_uploader.py:32 | `%02d`/`%04d` writes exactly `w` characters |
| Timestamps.Timestamp | dropbox_uploader.py:32 | a stamp has 15 characters |
| Timestamps.DigitsAreDigits | db_user_root_uploader.py:146 | zero-padded numbers pass `isdigit()` |
| Timestamps.TimestampShape | dropbox_uploader.py:32 | a stamp is eight digits, `_`, six digits, with neither `.` nor `/` |
| Timestamps.DigitsOrder | db_user_root_uploader.py:154 | zero-padded numbers of one width compare and are equal as strings exactly as they do as numbers |
| Timestamps.FieldFirst | db_user_root_uploader.py:154 | a zero-padded field in front decides the order unless it is equal |
| Timestamps.TimestampOrder | db_user_root_uploader.py:153-155 | stamps compare as strings exactly as the clock readings compare in time |
| Timestamps.TimestampInjective | dropbox_uploader.py:32-34 | two readings give the same stamp only when they are the same reading |
| Json.Hex | dropbox_uploader_teamspace.py:61 | `\uXXXX` digits have exactly the requested width |
| Json.ParseHexOfHex | dropbox_uploader_teamspace.py:61 | reading the hex digits back gives the number |
| Json.EscapeChar | dropbox_uploader_teamspace.py:61 | every character is written as at least one character |
| Json.UnescapeChar | dropbox_uploader_teamspace.py:61 | every escape, short, `\uXXXX` or surrogate pair, decodes back to its character |
| Json.UnescapeEscape | dropbox_uploader_teamspace.py:61 | decoding undoes the escaping of a whole string |
| Json.EscapeIsAscii | dropbox_uploader_teamspace.py:61 | with `ensure_ascii` the output is printable ASCII whatever the input |
| Json.EscapePlain | dropbox_uploader_teamspace.py:61 | printable text without `"` and `\` is written as it is |
| Json.JsonStringRoundTrip | dropbox_uploader_teamspace.py:61 | `json.dumps` of a string is printable ASCII and reads back as the string |
| Json.JsonStringInjective | dropbox_uploader_teamspace.py:61 | different strings are written differently |
| Json.JsonStringPlain | dropbox_uploader_teamspace.py:61 | printable text without `"` and `\` is dumped as itself between quotes |
| Json.JsonObjectPrintable | dropbox_uploader_teamspace.py:60-61 | a dumped dict of strings is printable ASCII |
| Json.JsonObjectTwoPlain | dropbox_uploader_teamspace.py:60-61 | a two-member dict of plain strings is written as `{"k0": "v0", "k1": "v1"}` |
| DailyOrders.QueryFieldsAppend | get_order_detail_component_parallel.py:41 | each parameter contributes its field independently, in dict order |
| DailyOrders.QueryFieldOfParam | get_order_detail_component_parallel.py:41 | a parameter that is None or "" sends nothing; any other sends `key=value` in its place |
| DailyOrders.RequestUrlDeterminesQuery | get_order_detail_component_parallel.py:41-43 | with a fixed-length digest, a request URL determines its query string |
| DailyOrders.Pauses | get_order_detail_component_parallel.py:54-56 | `n` pauses, no more and no fewer |
| DailyOrders.Retry | get_order_detail_component_parallel.py:44-58 | the retry loop ends with the body, attempt count and pauses of `ConstantTrace` |
| DailyOrders.MakeRequest | get_order_detail_component_parallel.py:40-58 | the signed URL, and the retry trace |
| DailyOrders.PausesTotal | get_order_detail_component_parallel.py:56 | the pauses add up to `delay` times their number |
| DailyOrders.ConstantTraceMeaning | get_order_detail_component_parallel.py:44-58 | at most `max_retries` attempts; a body exactly when some attempt answered 200, and it is that attempt's body; every earlier attempt failed; one pause of `delay` between attempts and none after the last |
| DailyOrders.ListNumbers | get_order_detail_component_parallel.py:64-94 | without a crash, the numbers are those of exactly the pages read, in order, duplicates kept; the first request sends "" |
| DailyOrders.ListCursorAt | get_order_detail_component_parallel.py:74-75 | every request but the last follows a full page and sends that page's last key, or the old cursor when the last result has none |
| DailyOrders.CollectNumbers | get_order_detail_component_parallel.py:85-88 | the loop appends the stripped number of every result that has one, in order |
| DailyOrders.ReadPage | get_order_detail_component_parallel.py:80-91 | one page: it crashes exactly when it does not parse; else it gives its numbers, its count and its last key |
| DailyOrders.ReadPageAt | get_order_detail_component_parallel.py:77-91 | reads reply `n`, with no reply past the given ones |
| DailyOrders.AfterFullPage | get_order_detail_component_parallel.py:89-93 | a full page moves its numbers and its cursor in front of the rest of the listing |
| DailyOrders.AfterShortPage | get_order_detail_component_parallel.py:92-93 | a short page ends the listing |
| DailyOrders.FetchOrders | get_order_detail_component_parallel.py:61-94 | `async_fetch_orders` returns the listing `List` describes, crash included |
| DailyOrders.ServedNeverFinishes | get_order_detail_component_parallel.py:89-93 | as written, a full page whose last result has no number is asked for again with the same cursor, forever |
| DailyOrders.StaleCursorExample | get_order_detail_component_parallel.py:89-93 | a server that always answers 100 number-less results is advancing, yet the loop never ends |
| DailyOrders.StoppingFinishes | customdate_get_order_detail_component_parallel.py:130-138 | with the stop on a missing key, an advancing server lets the loop finish within `rank(cursor) + 1` requests |
| DailyOrders.MoreFuelFinishes | customdate_get_order_detail_component_parallel.py:130-145 | a run that finishes with some fuel finishes the same way with more |
| DailyOrders.ScheduledSound | get_order_detail_component_parallel.py:139-144 | every component request comes from a detail with a missing or blank `jan_cd` and a `line_no`, carries that detail's stripped `line_no`, and follows the order of the details |
| DailyOrders.ScheduledComplete | get_order_detail_component_parallel.py:139-144 | every detail that needs components gets a request |
| DailyOrders.ComponentNodes | get_order_detail_component_parallel.py:157-163 | there are no more `<Component>` nodes than component results |
| DailyOrders.ComponentNodesMeaning | get_order_detail_component_parallel.py:157-163 | every `<Component>` copies a result with a non-blank `jan_cd`, and every such result has one |
| DailyOrders.ApplyAll | get_order_detail_component_parallel.py:151-165 | without a crash, the zip loop keeps the number of details |
| DailyOrders.ApplyAllCrash | get_order_detail_component_parallel.py:152-153 | the zip loop crashes exactly when some component reply does not parse |
| DailyOrders.ApplyAllPrefixCrash | get_order_detail_component_parallel.py:151-153 | once a prefix of the replies crashes, all of them do |
| DailyOrders.ApplyAllAt | get_order_detail_component_parallel.py:151-165 | each detail gets its own reply's container, and a detail without a request is left alone |
| DailyOrders.Plain | get_order_detail_component_parallel.py:135-138 | one `<OrderDetail>` per detail result |
| DailyOrders.Gather | get_order_detail_component_parallel.py:147-149 | one component reply per request |
| DailyOrders.OrderTreeMeaning | get_order_detail_component_parallel.py:126-168 | a failed detail fetch gives a bare `<Order>` with its number; an unparsable detail reply crashes; otherwise one child per detail result |
| DailyOrders.OrderTreeCrash | get_order_detail_component_parallel.py:132-153 | with a parsed detail reply, the order crashes exactly when a detail that needs components gets an unparsable reply |
| DailyOrders.CrashOfRequest | get_order_detail_component_parallel.py:147-153 | an unparsable component reply answers a detail that needs components |
| DailyOrders.RequestOfCrash | get_order_detail_component_parallel.py:147-153 | a detail whose component reply does not parse has a request among the gathered ones |
| DailyOrders.OrderTreeDetailAt | get_order_detail_component_parallel.py:166-167 | child `j` of a completed order is the final form of detail result `j` |
| DailyOrders.BuildComponents | get_order_detail_component_parallel.py:152-165 | the component loop builds the container `ComponentsOf` describes |
| DailyOrders.ScheduleDetails | get_order_detail_component_parallel.py:135-145 | the detail loop gives the copied details and the requests `Scheduled` describes |
| DailyOrders.AttachComponents | get_order_detail_component_parallel.py:151-165 | the zip loop gives the details `ApplyAll` describes |
| DailyOrders.ProcessOrder | get_order_detail_component_parallel.py:126-168 | `process_order` returns `OrderTree` |
| DailyOrders.Orders | get_order_detail_component_parallel.py:175-176 | without a crash, one order per number |
| DailyOrders.OrdersMeaning | get_order_detail_component_parallel.py:171-179 | one `<Order>` per number, in input order, failed detail fetches included; a crash exactly when some order crashes |
| DailyOrders.BuildOrderTree | get_order_detail_component_parallel.py:171-179 | `<Orders>` holds the gathered orders; the run crashes exactly when one does |
| DailyOrders.OrdersPrefixCrash | get_order_detail_component_parallel.py:176 | once a prefix of the numbers crashes, the whole run does |
| CustomdateOrders.QueryFieldsAppend | customdate_get_order_detail_component_parallel.py:32-39 | each parameter contributes its fields independently, in dict order |
| CustomdateOrders.AbsentParamSendsNothing | customdate_get_order_detail_component_parallel.py:34 | a parameter set to None sends nothing |
| CustomdateOrders.Backoff | customdate_get_order_detail_component_parallel.py:64-66 | `n` pauses |
| CustomdateOrders.BackoffMeaning | customdate_get_order_detail_component_parallel.py:66 | the pause after failure `k + 1` is `delay * 2^k` |
| CustomdateOrders.AppendItems | customdate_get_order_detail_component_parallel.py:35-37 | a list-valued parameter sends one `key=item` per item, in order |
| CustomdateOrders.QueryParts | customdate_get_order_detail_component_parallel.py:32-39 | the `query_parts` loop gives the fields in insertion order, with None skipped and lists expanded |
| CustomdateOrders.RequestUrl | customdate_get_order_detail_component_parallel.py:40-43 | the URL is the signed URL of the `&`-joined fields |
| CustomdateOrders.Retry | customdate_get_order_detail_component_parallel.py:52-69 | the retry loop ends with the body, attempt count and pauses of `BackoffTrace` |
| CustomdateOrders.MakeRequest | customdate_get_order_detail_component_parallel.py:31-69 | the signed URL and the retry trace |
| CustomdateOrders.BackoffTotal | customdate_get_order_detail_component_parallel.py:66 | the first `n` pauses add up to `delay * (2^n - 1)` |
| CustomdateOrders.BackoffTraceMeaning | customdate_get_order_detail_component_parallel.py:52-69 | at most `max_retries` attempts; a body exactly when some attempt answered 2xx, and it is that attempt's body; every earlier attempt failed; one pause between attempts, growing geometrically |
| CustomdateOrders.DefaultRetries | customdate_get_order_detail_component_parallel.py:31 | with the defaults (3 attempts, 2 s), a 404 is retried and two failures pause 2 s and 4 s |
| CustomdateOrders.PutMeaning | customdate_get_order_detail_component_parallel.py:124 | `d[k] = v` binds `k`, leaves other keys alone, keeps key order, appends a new key, keeps keys distinct |
| CustomdateOrders.LastKeyed | customdate_get_order_detail_component_parallel.py:120-124 | the last row with a key is -1 or an index into the page |
| CustomdateOrders.LastKeyedMeaning | customdate_get_order_detail_component_parallel.py:120-124 | the row found carries the key, and no later row does |
| CustomdateOrders.AbsorbAppend | customdate_get_order_detail_component_parallel.py:120-124 | storing two runs of rows one after the other is storing their concatenation |
| CustomdateOrders.AbsorbLastWins | customdate_get_order_detail_component_parallel.py:120-127 | a key is present exactly when it was before or some row carries it; the last such row wins; other keys keep their values and positions |
| CustomdateOrders.CursorMeaning | customdate_get_order_detail_component_parallel.py:130-145 | the loop goes on exactly when the page is full and its last result has a key, and then it sends that key |
| CustomdateOrders.Stop | customdate_get_order_detail_component_parallel.py:130-145 | the stopping page lies between the start and the end |
| CustomdateOrders.StopMeaning | customdate_get_order_detail_component_parallel.py:130-145 | every page before the stop continues, and the one at the stop does not |
| CustomdateOrders.PaginateRequests | customdate_get_order_detail_component_parallel.py:80-93 | the loop requests every page up to and including the first that does not continue, starting with "" |
| CustomdateOrders.PaginateCursors | customdate_get_order_detail_component_parallel.py:90-91 | every request after the first sends the cursor of the page before it |
| CustomdateOrders.PaginateOrders | customdate_get_order_detail_component_parallel.py:80-148 | the stored orders are the rows of exactly the requested pages, stored in order |
| CustomdateOrders.PaginateStep | customdate_get_order_detail_component_parallel.py:130-145 | a page that continues hands its orders and cursor to the next request |
| CustomdateOrders.PaginateOrdersGoesOn | customdate_get_order_detail_component_parallel.py:130-145 | the step of the pagination proof for a page after which the loop goes on |
| CustomdateOrders.FetchedOrdersMeaning | customdate_get_order_detail_component_parallel.py:72-148 | the orders of a date have distinct numbers; a number is stored exactly when some requested row carries it; the last such row is its value |
| CustomdateOrders.PageQueryFields | customdate_get_order_detail_component_parallel.py:82-91 | a page request filters on the one date and carries `order_number` only with a non-empty cursor |
| CustomdateOrders.DateFilterFields | customdate_get_order_detail_component_parallel.py:82-89 | the first request carries account, condition 1, source type 99 and the date twice |
| CustomdateOrders.StoreResults | customdate_get_order_detail_component_parallel.py:120-127 | the store loop stores every result with a key |
| CustomdateOrders.FetchPage | customdate_get_order_detail_component_parallel.py:93-145 | one page stores its keyed rows and gives the next cursor `Cursor` describes; a failed, unparsable or empty reply stops |
| CustomdateOrders.FetchPageAt | customdate_get_order_detail_component_parallel.py:93-145 | reads page `n`, with no reply past the given ones |
| CustomdateOrders.FetchBaseOrdersForDay | customdate_get_order_detail_component_parallel.py:72-148 | `async_fetch_base_orders_for_day` ends with the orders and cursors `Paginate` describes |
| CustomdateTree.HasJanCodeMeaning | customdate_get_order_detail_component_parallel.py:208-209 | `has_jan_cd` holds exactly when some child is a `jan_cd` with non-blank text |
| CustomdateTree.LineNoNone | customdate_get_order_detail_component_parallel.py:210-211 | there is no `line_no` exactly when no child is a `line_no` with text |
| CustomdateTree.LineNoLast | customdate_get_order_detail_component_parallel.py:210-211 | `line_no` is the stripped text of the last `line_no` child with text |
| CustomdateTree.LineNoMeaning | customdate_get_order_detail_component_parallel.py:204-211 | both of the above together |
| CustomdateTree.ScanDetail | customdate_get_order_detail_component_parallel.py:204-211 | the child loop computes `HasJanCode` and `LineNo` |
| CustomdateTree.KeepComponentIffChildren | customdate_get_order_detail_component_parallel.py:239-240 | the component filter keeps exactly the results with at least one child |
| CustomdateTree.ComponentNodes | customdate_get_order_detail_component_parallel.py:238-245 | no more `<Component>` nodes than results |
| CustomdateTree.ComponentNodesMeaning | customdate_get_order_detail_component_parallel.py:238-245 | every `<Component>` copies a non-empty result's children, and every non-empty result has one |
| CustomdateTree.BuildComponents | customdate_get_order_detail_component_parallel.py:232-248 | the loop builds the container `Components` describes |
| CustomdateTree.ExpandMeaning | customdate_get_order_detail_component_parallel.py:224-248 | an exception or no reply leaves the detail alone; otherwise at most one non-empty `<Components>` is appended and nothing else changes |
| CustomdateTree.Plain | customdate_get_order_detail_component_parallel.py:202-207 | one `<OrderDetail>` per detail result |
| CustomdateTree.ScheduledSound | customdate_get_order_detail_component_parallel.py:213-215 | every request comes from a detail that needs components, carries its `line_no`, and follows the order of the details |
| CustomdateTree.ScheduledComplete | customdate_get_order_detail_component_parallel.py:213-215 | every detail that needs components gets a request |
| CustomdateTree.Gather | customdate_get_order_detail_component_parallel.py:219-222 | one outcome per request |
| CustomdateTree.ApplyAll | customdate_get_order_detail_component_parallel.py:224-248 | the outcome loop keeps the number of details |
| CustomdateTree.ApplyAllAt | customdate_get_order_detail_component_parallel.py:224-248 | each detail is expanded by its own outcome; a detail without a request is left alone |
| CustomdateTree.DetailsOfMeaning | customdate_get_order_detail_component_parallel.py:199-248 | one `<OrderDetail>` per detail result, in order, each the final form of its own result |
| CustomdateTree.OrderTreeMeaning | customdate_get_order_detail_component_parallel.py:179-254 | every order carries its number and a header copying the base fields; `<OrderDetails>` follows exactly when the detail reply has results, with one detail per result |
| CustomdateTree.ProcessOrder | customdate_get_order_detail_component_parallel.py:179-254 | `process_order` returns `OrderTree` |
| CustomdateTree.ScheduleDetails | customdate_get_order_detail_component_parallel.py:199-216 | the detail loop gives the details and requests `Plain` and `Scheduled` describe; none without a reply |
| CustomdateTree.AttachComponents | customdate_get_order_detail_component_parallel.py:224-248 | the outcome loop gives the details `ApplyAll` describes |
| CustomdateTree.Survivors | customdate_get_order_detail_component_parallel.py:272-282 | no more survivors than orders |
| CustomdateTree.AssembledMeaning | customdate_get_order_detail_component_parallel.py:262-282 | `<Orders>` holds one order per surviving key, in key order; survivors plus failures account for every key |
| CustomdateTree.BuildCompleteOrderTree | customdate_get_order_detail_component_parallel.py:257-288 | the tree is `<Orders>` over the assembled orders; the processed count is its size; the failed count counts the raised orders |
| CustomdateRun.DatesToProcess | customdate_get_order_detail_component_parallel.py:403-412 | an error exactly when start is after end; otherwise every date from start to end, one day apart |
| CustomdateRun.Word | customdate_get_order_detail_component_parallel.py:313-391 | each status word is non-empty and has no `:` |
| CustomdateRun.DateOutcomeMeaning | customdate_get_order_detail_component_parallel.py:305-391 | a date succeeds exactly when it had orders, processed one and stored the file; no orders and no data are told apart; the null-tree and serialisation errors never happen |
| CustomdateRun.StorageAsWritten | customdate_get_order_detail_component_parallel.py:342-369 | as written, the upload step never stores the file |
| CustomdateRun.AsWrittenNeverSucceeds | customdate_get_order_detail_component_parallel.py:342-369 | as written, no date succeeds; a processed, written date ends as an upload error |
| CustomdateRun.StorageIntended | customdate_get_order_detail_component_parallel.py:342-369 | as intended, the file is stored exactly when it was written and the upload returned |
| CustomdateRun.IntendedOutcome | customdate_get_order_detail_component_parallel.py:305-391 | with the intended call, success exactly when orders, processing, write and upload all worked; the write and upload errors are reported for the right branch |
| CustomdateRun.ClassifyStatus | customdate_get_order_detail_component_parallel.py:434-458 | every status string lands in its own result's bucket, whatever the date text |
| CustomdateRun.ErrorClassified | customdate_get_order_detail_component_parallel.py:450-452 | a string starting `ERROR_` counts as an error |
| CustomdateRun.TallyAccounts | customdate_get_order_detail_component_parallel.py:428-458 | every reply is counted exactly once among success, no orders, no data and errors; unhandled exceptions are among the errors |
| CustomdateRun.Summarize | customdate_get_order_detail_component_parallel.py:428-458 | the summary loop computes `TallyOf` |
| ItemsStock.ItemsFields | get_items_sku_stock_parallel.py:33-35 | an item query has two fields, three with a cursor |
| ItemsStock.ItemsQueryFields | get_items_sku_stock_parallel.py:33-35 | read back at `&`, the query is the account, the condition and, exactly with a non-empty cursor, `item_code` |
| ItemsStock.PairQueryFields | get_items_sku_stock_parallel.py:67 | read back at `&`, a SKU or stock query is the account and the code |
| ItemsStock.ResultsOf | get_items_sku_stock_parallel.py:52-57 | one element per row |
| ItemsStock.NextCodeMeaning | get_items_sku_stock_parallel.py:52-56 | the cursor is the old one when no result has an `item_code`, else that of the last result that has one |
| ItemsStock.ItemsFromResults | get_items_sku_stock_parallel.py:28-64 | every result of every page read is kept, in page order, with or without an `item_code`; the first request sends "" |
| ItemsStock.ItemsCursorAt | get_items_sku_stock_parallel.py:32-62 | every request but the last follows a full page and sends that page's cursor |
| ItemsStock.ItemsLastPage | get_items_sku_stock_parallel.py:40-62 | the loop stops at a reply that ended it or at a short page |
| ItemsStock.AbsorbPage | get_items_sku_stock_parallel.py:52-57 | the page loop appends every result and moves the cursor to the last `item_code` |
| ItemsStock.ItemsRequest | get_items_sku_stock_parallel.py:33-37 | the URL built for a cursor |
| ItemsStock.ReadItemsPage | get_items_sku_stock_parallel.py:39-62 | one pass: a crash exactly on a connection failure; the page's items appended; goes on exactly after a full page |
| ItemsStock.ItemsFromStep | get_items_sku_stock_parallel.py:32-62 | one request of the loop, as `FetchAllItems` takes it |
| ItemsStock.FetchAllItems | get_items_sku_stock_parallel.py:28-64 | `fetch_all_items` returns the run `ItemsFrom` describes, one signed URL per request, and a total equal to the item count |
| ItemsStock.SkuCode | get_items_sku_stock_parallel.py:129-131 | a stock request is sent only for a SKU with an `item_sku_code` |
| ItemsStock.SkuNodes | get_items_sku_stock_parallel.py:125-153 | one `<Sku>` per SKU result |
| ItemsStock.ProcessedItemMeaning | get_items_sku_stock_parallel.py:105-155 | an item without a code, or whose SKU fetch fails or does not parse, comes back unchanged; any other gets one `<Skus>` after its children, with one `<Sku>` per SKU result |
| ItemsStock.SkuNodeMeaning | get_items_sku_stock_parallel.py:126-150 | each `<Sku>` keeps its result's children and gets a `<Stock>` with every stock result exactly when its code's stock reply parses |
| ItemsStock.StockedUpTo | get_items_sku_stock_parallel.py:139-150 | the zip loop's intermediate state has one `<Sku>` per result |
| ItemsStock.ScheduleSkus | get_items_sku_stock_parallel.py:125-135 | the SKU loop gives bare `<Sku>`s and one stock reply per SKU, the None placeholder where there is no code |
| ItemsStock.AttachStock | get_items_sku_stock_parallel.py:137-150 | the zip loop gives the `<Sku>`s `SkuNodes` describes |
| ItemsStock.ProcessItem | get_items_sku_stock_parallel.py:105-155 | `process_item` returns `ProcessedItem` |
| ItemsStock.ProcessedItems | get_items_sku_stock_parallel.py:157-163 | one processed item per item |
| ItemsStock.BuildItemsTree | get_items_sku_stock_parallel.py:157-172 | `<Items>` holds the processed items in fetch order |
| ItemsStock.ProcessedItemsKeepOrder | get_items_sku_stock_parallel.py:161-172 | item `i` of the tree is item `i` of the list, its own tag, attributes and children first |
| CsvExport.ConcatMember | generate-csv.py:8-32 | a row is in the nested loops' output exactly when an inner loop produced it |
| CsvExport.SkuRows | generate-csv.py:14-32 | no more rows than `<Sku>`s |
| CsvExport.PerResult | generate-csv.py:9-14 | one row list per top-level result |
| CsvExport.SkuRowMeaning | generate-csv.py:15-32 | a `<Sku>` gives a row exactly when its `jan_code` has text; the row carries that code, the SKU code and the stock value |
| CsvExport.StockValueMeaning | generate-csv.py:21-26 | the stock value is present exactly when `Stock/Result/stock` exists; it is its text, "" without one |
| CsvExport.SkuRowsMeaning | generate-csv.py:14-32 | the rows are those of the `<Sku>`s with a JAN code: each row comes from one, and each such `<Sku>` has its row |
| CsvExport.StockTableMeaning | generate-csv.py:4-34 | a row is in the table exactly when a top-level `<Result>` with `<Skus>` produced it |
| CsvExport.CollectSkuRows | generate-csv.py:14-32 | the inner loop appends `SkuRows` |
| CsvExport.ParseStockMinimal | generate-csv.py:4-34 | `parse_stock_minimal` computes `StockTable` |
| CsvExport.WithStock | generate-csv.py:85 | the filter never adds rows; it is reached only with a non-empty table (`ExportMeaning`) |
| CsvExport.WithStockMeaning | generate-csv.py:85 | the filter keeps exactly the rows whose stock is neither missing nor empty; on an empty table the run raises before it (`ExportMeaning`) |
| CsvExport.WithStockIdempotent | generate-csv.py:85 | filtering twice is filtering once |
| CsvExport.ExportMeaning | generate-csv.py:78-88 | the run raises `KeyError` at the filter (generate-csv.py:85) exactly when no `<Sku>` of a top-level `<Result>` has a JAN code; otherwise stock.csv gets exactly the rows with a stock value and order_items.csv the whole order-item table |
| CsvExport.MainItem | generate-csv.py:51-57 | at most one main row per detail |
| CsvExport.ComponentItems | generate-csv.py:62-72 | no more rows than components |
| CsvExport.PerDetail | generate-csv.py:44 | one row list per detail |
| CsvExport.PerOrder | generate-csv.py:43 | one row list per order |
| CsvExport.ComponentItemsMeaning | generate-csv.py:60-72 | component rows carry the detail's order number and a non-empty JAN code; each comes from such a component and each such component has its row |
| CsvExport.DetailItemsMeaning | generate-csv.py:45-72 | a detail's main row exists exactly when its `jan_cd` is non-empty, comes first and has its `amount`; all rows carry its `order_number` and a JAN code |
| CsvExport.OrderRowsMeaning | generate-csv.py:44-72 | an order's rows are those of its `<OrderDetail>` children |
| CsvExport.OrderItemsTableMeaning | generate-csv.py:37-74 | a row is in the table exactly when a direct `<OrderDetail>` of a top-level `<Order>` produced it |
| CsvExport.OrderItemsTableFrom | generate-csv.py:43-72 | every row of the table comes from a direct `<OrderDetail>` of a top-level `<Order>` |
| CsvExport.OrderItemsTableHas | generate-csv.py:43-72 | every row of such a detail is in the table |
| CsvExport.CollectComponents | generate-csv.py:62-72 | the component loop computes `ComponentItems` |
| CsvExport.CollectDetail | generate-csv.py:45-72 | the detail body gives the main row, then the component rows |
| CsvExport.CollectOrder | generate-csv.py:44-72 | the detail loop computes `OrderRows` |
| CsvExport.ParseOrderItems | generate-csv.py:37-74 | `parse_order_items` computes `OrderItemsTable` |
| SimpleUploader.UploadFileMeaning | dropbox_uploader.py:7-41 | the file goes to the timestamped destination exactly when it is read and the upload is accepted; an upload failure is raised again |
| SimpleUploader.DocumentedStamp | dropbox_uploader.py:18-20 | 2023-04-20 15:30:45 is stamped `20230420_153045` |
| SimpleUploader.DocumentedExample | dropbox_uploader.py:17-20 | `/Reports/output.xml` at that time goes to `/Reports/output_20230420_153045.xml` |
| SimpleUploader.StampUnderFolder | dropbox_uploader.py:30-34 | under a folder, the stamp goes between the file's stem and extension |
| SimpleUploader.ExtensionKept | dropbox_uploader.py:30-34 | the new name splits into the old stem plus `_` and the stamp, and the old extension |
| SimpleUploader.NoExtensionAppends | dropbox_uploader.py:30-34 | a destination without an extension gets the stamp at its end |
| SimpleUploader.DestinationLength | dropbox_uploader.py:30-34 | the name grows by exactly 16 characters and keeps its stem in front |
| TeamspaceUploader.RStripMeaning | dropbox_uploader_teamspace.py:88 | `rstrip('/')` removes a run of `/` and leaves no trailing `/` |
| TeamspaceUploader.RStrip | dropbox_uploader_teamspace.py:88 | `rstrip` leaves a prefix of the path |
| TeamspaceUploader.RStripEmpty | dropbox_uploader_teamspace.py:88 | `rstrip('/')` leaves nothing exactly when the text is all `/` |
| TeamspaceUploader.NormalizePathMeaning | dropbox_uploader_teamspace.py:82-88 | the root stays `/`; `//`, `///`... become ""; every other path starts with `/` and does not end with one |
| TeamspaceUploader.NormalizePathStable | dropbox_uploader_teamspace.py:82-88 | normalising again changes nothing, unless the result was "" |
| TeamspaceUploader.NormalizeSlashesOnly | dropbox_uploader_teamspace.py:82-88 | `//` normalises to "", which normalises to `/` |
| TeamspaceUploader.UploadFileMeaning | dropbox_uploader_teamspace.py:20-109 | a bad configuration exits with 1 before the file is looked at; a missing file comes next; the upload goes to the normalised path exactly when the client connects and the upload succeeds |
| TeamspaceUploader.PathRootHeaderPrintable | dropbox_uploader_teamspace.py:60-64 | the Path-Root header is printable ASCII |
| TeamspaceUploader.PathRootHeaderMeaning | dropbox_uploader_teamspace.py:60-64 | the namespace id reads back from the header unchanged |
| TeamspaceUploader.PathRootHeaderInjective | dropbox_uploader_teamspace.py:60-64 | different namespaces get different headers |
| TeamspaceUploader.PathRootHeaderPlain | dropbox_uploader_teamspace.py:60-61 | a plain id gives `{".tag": "namespace_id", "namespace_id": "<id>"}` |
| RootUploader.GetClientMeaning | db_user_root_uploader.py:16-34 | a client is refused exactly when a credential is unset or empty; only an authenticated client is handed out |
| RootUploader.UploadFileMeaning | db_user_root_uploader.py:37-65 | a missing file is reported whatever the upload would do; otherwise the upload goes to the timestamped destination and its path is returned |
| RootUploader.UploadDestinationRooted | db_user_root_uploader.py:48-53 | the destination is the plain uploader's, with `/` in front when missing |
| RootUploader.ApiPathMeaning | db_user_root_uploader.py:67-71 | `/` and "" list the root as ""; every other path gets one leading `/`; normalising twice changes nothing |
| RootUploader.SliceBound | db_user_root_uploader.py:145 | a Python slice bound lands inside the string |
| RootUploader.AsWrittenRejectsNoExtension | db_user_root_uploader.py:145-146 | as written, with an empty extension no name passes the filter |
| RootUploader.MissedUploadExample | db_user_root_uploader.py:140-147 | the upload `report_20230420_153045` of `report` is missed by the program's filter and accepted by the intended one |
| RootUploader.AsWrittenAgreesWithSuffix | db_user_root_uploader.py:140-147 | with a non-empty extension both filters agree |
| RootUploader.Matching | db_user_root_uploader.py:137-147 | the filter never adds entries |
| RootUploader.MatchingMeaning | db_user_root_uploader.py:137-147 | the filter, with the program's slice or the intended one, keeps exactly the listed entries that pass it |
| RootUploader.MatchingAgrees | db_user_root_uploader.py:140-147 | with a non-empty extension the program's filter and the intended one keep the same entries |
| RootUploader.CollectMatches | db_user_root_uploader.py:137-147 | the filter loop, cutting the stamp with `name[len(prefix):-len(suffix)]`, keeps exactly what the program's filter keeps |
| RootUploader.Latest | db_user_root_uploader.py:154-155 | the chosen index is in range |
| RootUploader.LatestMeaning | db_user_root_uploader.py:154-155 | no name is greater than the chosen one, and every earlier entry has a smaller name (the sort is stable) |
| RootUploader.NamesOrderedByTime | db_user_root_uploader.py:153-155 | names of uploads of one file compare as their upload times |
| RootUploader.ChosenMeaning | db_user_root_uploader.py:149-155 | for either filter: nothing is picked exactly when no entry passes it; else the pick passes it and no passing entry has a greater name |
| RootUploader.VerificationMeaning | db_user_root_uploader.py:102-194 | success exactly when the local file exists, the folder lists, a file is picked, it downloads as the local bytes and, with cleanup, the delete raises nothing but an `ApiError`; the picked file's delete is requested exactly when the bytes match and cleanup is on |
| RootUploader.VerifyUpload | db_user_root_uploader.py:102-194 | `verify_dropbox_upload` as written returns the verdict `Verification` gives with the program's filter |
| RootUploader.VerificationAgreesWithExtension | db_user_root_uploader.py:128-147 | when the file name has an extension, the program's verdict is the intended one |
| RootUploader.AsWrittenNeverVerifiesWithoutExtension | db_user_root_uploader.py:128-151 | as written, a file name without an extension never verifies and nothing is deleted, whatever the folder holds |
| RootUploader.StampedNameMatches | db_user_root_uploader.py:140-147 | stem, `_`, a stamp and the extension pass the filter |
| RootUploader.StemUnderFolder | db_user_root_uploader.py:48-53 | under a folder, the stamped stem is the folder plus the file's stem |
| RootUploader.UploadDestinationUnderFolder | db_user_root_uploader.py:48-53 | an upload into a folder keeps the folder and stamps the file name alone |
| RootUploader.UploadedNameMatches | db_user_root_uploader.py:37-65 | a file uploaded into a folder gets a name the corrected filter accepts for that file name |
| RootUploader.UploadedNameMatchesAsWritten | db_user_root_uploader.py:128-147 | the filter as written accepts it too when the name has an extension |
| RootUploader.MissedVerificationExample | db_user_root_uploader.py:102-194 | `report_20230420_153045` alone in the root, downloading as the local bytes, fails verification for `report` as written and passes it as intended |
| RootUploader.UploadedIsFound | db_user_root_uploader.py:37-65 | with the intended filter, a listing that holds the uploaded file always yields a pick, with a name no smaller than the upload's |

## Left out

- HTTP, the XML parser, MD5, the clock, the file system, the Dropbox SDK and the environment are parameters. The model says nothing about their internals.
- Printing and logging, and `traceback.print_exc`, are left out.
- Concurrency is left out: the semaphores and `asyncio.gather`'s interleaving. A gather is an order-preserving map, which is what it returns.
- Sleeps are recorded as numbers of seconds in the trace (`Trace.sleeps`); the float `delay` is a natural number.
- Serialising a tree (`ET.tostring`, `tree.write`) and writing files are left out. The trees are the result.
- `main` of the two order scripts and of the item script is left out beyond the tree it builds. That covers the `WRITE_XML` switch, the temporary file and the upload call. The item script's upload call (get_items_sku_stock_parallel.py:179, :188) passes two arguments to the three-parameter uploader, like the date-range script does; it would raise outside any `try`, and it is not modelled.
- The daily script's `ET.fromstring` on the order list is not guarded, so an unparsable page ends the run (`Crashed`).
- In the item listing, a request past the given responses fails like a connection error, which escapes `fetch_all_items`.
- The detail and component fetches of the date-range script answer a root or None; their own retries are those of `MakeRequest`.
- CustomdateTree.BuildCompleteOrderTree: whether `process_order` raises is a parameter (`crashed`).
- `ERROR_NULL_TREE` and `ERROR_SERIALIZE` are kept as results that never occur (`DateOutcomeMeaning`).
- CustomdateRun.DatesToProcess: dates are day numbers. Parsing and printing `YYYY-MM-DD` (`strptime`, `strftime`) are not modelled, so a date's text is a parameter.
- The items cursor can be "" when an `item_code` is white space; the model keeps that, like the code.
- Keys can be "" after `strip()` (a text of white space): `ResultKeys.KeyOfMeaning` says so.
- Timestamps.ValidClock: four-digit years only. No calendar validity (days per month) is checked, since `strftime` does not check it either.
- Timestamps.IsDigit: ASCII digits only. Python's `isdigit()` also accepts other Unicode digits (full-width, Arabic-Indic, ...), so a listed name whose stamp part holds such digits passes the program's filter and is rejected by the model's.
- Json.Unescape: only the lower-case hex that `json.dumps` writes is decoded. It is a reference decoder for the round trip, not `json.loads`.
- RootUploader.Latest: the sort is modelled by the element it puts first (greatest name, first among equals), not as a whole sorted list.
- RootUploader.Verification: `files_list_folder` is modelled without `has_more`, as the code reads one page only.
- RootUploader.Verification: the local file is read with `os.path.exists`, not modelled for directories. An error in reading it after the check is folded into a failed comparison.
- `list_dropbox_path` (db_user_root_uploader.py:67-100) is modelled by its path computation (`ApiPath`); the printing of entries is left out.
- `run_upload_test_and_verify` (db_user_root_uploader.py:198-265) is left out: it writes a temporary file with a uuid and only calls the modelled functions.
- RootUploader.UploadFileMeaning: a read error after the existence check is folded into `UploadError`; the `metadata.size` printout is left out.
- TeamspaceUploader.UploadFileMeaning: `files_upload`'s `overwrite` mode and the conflict message are not modelled. The client, the read and the upload are folded into `connects` and `accepted`.
- SimpleUploader.UploadFileMeaning: the client is built from the access token without a call, so only the read and the upload can fail.
- db_get_dbmid.py, db_get_team_namespace.py, db_list_teamspace_files.py and db_token.py are not part of this model.

## Findings

| source | as written | input that shows it | evidently intended | confidence | as-written member | corrected member |
|---|---|---|---|---|---|---|
| get_order_detail_component_parallel.py:89-93 | after a full page whose last `Result` has no `order_number`, the cursor is left as it was and the same page is asked for again | a server answering 100 results without `order_number` to every request | stop paging, as the date-range script does at customdate_get_order_detail_component_parallel.py:136-138 | high, not executed | DailyOrders.ServedNeverFinishes, DailyOrders.StaleCursorExample | DailyOrders.StoppingFinishes |
| db_user_root_uploader.py:145-146 | the stamp is cut out with `name[len(prefix):-len(suffix)]`; with an empty suffix that is `name[len(prefix):0]`, always "" | `base_filename = "report"` and a listed file `report_20230420_153045` | the text between the prefix and the suffix | high, not executed | RootUploader.VerifyUpload, RootUploader.AsWrittenNeverVerifiesWithoutExtension, RootUploader.MissedVerificationExample | RootUploader.VerificationAgreesWithExtension, RootUploader.UploadedIsFound |
| customdate_get_order_detail_component_parallel.py:347, :362 | `upload_file_to_dropbox(path, target)` is called with two arguments; the imported function (dropbox_uploader.py:7) takes three, so the call raises `TypeError`, which the `except Exception` turns into `ERROR_UPLOAD` / `ERROR_UPLOAD_TEMP` | any date with at least one processed order | an upload with the file and the destination that reports `SUCCESS` when it returns | high, not executed | CustomdateRun.AsWrittenNeverSucceeds | CustomdateRun.IntendedOutcome |

/**
 * The item export (get_items_sku_stock_parallel.py): the paginated item list,
 * then, for each item, its SKUs and each SKU's stock, assembled into one
 * `<Items>` tree in item order.
 *
 * Replies: a page of the item list is a `Response` whose body goes through a
 * parse function (None for a parse error); a SKU or stock fetch is a function
 * of its code returning a `Reply` (`NoReply` for None or an empty body,
 * `Garbled` for a parse error).
 */
module ItemsStock {

  import opened Strings
  import opened Xml
  import opened Signing
  import opened Transport
  import opened ResultKeys

  // ---------------------------------------------------------------------------
  // Requests

  datatype Endpoint = Items | ItemSku | Stock

  function BaseUrl(e: Endpoint): string
  {
    match e
    case Items => "https://crossmall.jp/webapi2/get_item"
    case ItemSku => "https://crossmall.jp/webapi2/get_item_sku"
    case Stock => "https://crossmall.jp/webapi2/get_stock"
  }

  /** `CONDITION`. */
  const Condition: string := "1"

  /** The query of one item-list request: `&item_code=<cursor>` is added only
      when the cursor is non-empty. */
  function ItemsQuery(account: string, cursor: string): string
  {
    var base := Field("account", account) + "&" + Field("condition", Condition);
    if cursor != "" then base + "&" + Field("item_code", cursor) else base
  }

  /** The fields an item-list query carries. */
  function ItemsFields(account: string, cursor: string): (fs: seq<string>)
    ensures |fs| == if cursor == "" then 2 else 3
  {
    [Field("account", account), Field("condition", Condition)]
    + (if cursor != "" then [Field("item_code", cursor)] else [])
  }

  /** `f"account={ACCOUNT_ID}&item_code={item_code}"` */
  function SkuQuery(account: string, itemCode: string): string
  {
    Field("account", account) + "&" + Field("item_code", itemCode)
  }

  /** `f"account={ACCOUNT_ID}&sku_code={sku_code}"` */
  function StockQuery(account: string, skuCode: string): string
  {
    Field("account", account) + "&" + Field("sku_code", skuCode)
  }

  lemma FieldWithoutSeparator(key: string, value: string)
    requires '&' !in key && '&' !in value
    ensures '&' !in Field(key, value)
  {
  }

  /** Read back at `&`, an item-list query is the account, the condition and,
      exactly when the cursor is non-empty, the cursor as `item_code`. */
  lemma ItemsQueryFields(account: string, cursor: string)
    requires '&' !in account && '&' !in cursor
    ensures Split(ItemsQuery(account, cursor), '&') == ItemsFields(account, cursor)
  {
    var fs := ItemsFields(account, cursor);
    var two := [Field("account", account), Field("condition", Condition)];
    assert '&' !in Condition;
    FieldWithoutSeparator("account", account);
    FieldWithoutSeparator("condition", Condition);
    assert Join(two, '&') == Field("account", account) + "&" + Field("condition", Condition) by {
      JoinSnoc([two[0]], two[1], '&');
      assert [two[0]] + [two[1]] == two;
    }
    if cursor != "" {
      var f := Field("item_code", cursor);
      FieldWithoutSeparator("item_code", cursor);
      JoinSnoc(two, f, '&');
      assert fs == two + [f];
      assert Join(fs, '&') == ItemsQuery(account, cursor);
    } else {
      assert fs == two;
    }
    assert forall i :: 0 <= i < |fs| ==> '&' !in fs[i];
    SplitJoin(fs, '&');
  }

  /** Read back at `&`, a SKU or stock query is the account and the code. */
  lemma PairQueryFields(account: string, key: string, code: string)
    requires '&' !in account && '&' !in key && '&' !in code
    ensures Split(Field("account", account) + "&" + Field(key, code), '&') == [Field("account", account), Field(key, code)]
  {
    var fs := [Field("account", account), Field(key, code)];
    FieldWithoutSeparator("account", account);
    FieldWithoutSeparator(key, code);
    JoinSnoc([fs[0]], fs[1], '&');
    assert [fs[0]] + [fs[1]] == fs;
    SplitJoin(fs, '&');
  }

  /** The URL of an item-list request. */
  function ItemsUrl(md5: string -> string, authKey: string, account: string, cursor: string): string
  {
    SignedUrl(md5, BaseUrl(Items), ItemsQuery(account, cursor), authKey)
  }

  // ---------------------------------------------------------------------------
  // fetch_all_items

  /** An item-list reply as the loop reads it: a transport exception (which
      escapes), a reply that ends the loop (a status other than 200, or a body
      that does not parse), or the results keyed by `item_code`. */
  datatype ItemPage = Raises | Ends | Rows(rows: seq<Row>)

  function PageOfResponse(r: Response, parse: string -> Option<Elem>): ItemPage
  {
    match r
    case RequestError => Raises
    case Response(status, body) =>
      if status != 200 then Ends
      else match parse(body)
        case None => Ends
        case Some(root) => Rows(Keyed(Results(root), "item_code"))
  }

  /** `pages` holds the page of each of the responses to successive requests. */
  predicate PagesOfResponses(responses: seq<Response>, parse: string -> Option<Elem>, pages: seq<ItemPage>)
  {
    |pages| == |responses|
    && forall i {:trigger PageOfResponse(responses[i], parse)} :: 0 <= i < |responses| ==>
         pages[i] == PageOfResponse(responses[i], parse)
  }

  /** Page `n`; a request past the given responses fails like a connection error. */
  function PageAt(pages: seq<ItemPage>, n: nat): (p: ItemPage)
    ensures n >= |pages| ==> p == Raises
  {
    if n < |pages| then pages[n] else Raises
  }

  /** The result elements of the rows, in order. */
  function ResultsOf(rows: seq<Row>): (rs: seq<Elem>)
    ensures |rs| == |rows|
  {
    seq(|rows|, i requires 0 <= i < |rows| => rows[i].result)
  }

  /** The cursor after a page: every result with an `item_code` overwrites it,
      so it is the key of the last such result, or the old cursor when none has one. */
  function NextCode(rows: seq<Row>, cursor: string): string
  {
    if rows == [] then cursor
    else match rows[|rows| - 1].key
      case Some(k) => k
      case None => NextCode(rows[..|rows| - 1], cursor)
  }

  /** The cursor is the old one when no row has a key, and otherwise the key of
      the last row that has one. */
  lemma {:induction false} NextCodeMeaning(rows: seq<Row>, cursor: string)
    ensures (forall i :: 0 <= i < |rows| ==> rows[i].key.None?) ==> NextCode(rows, cursor) == cursor
    ensures (exists i :: 0 <= i < |rows| && rows[i].key.Some?) ==>
      exists i :: 0 <= i < |rows| && rows[i].key == Some(NextCode(rows, cursor))
                  && forall j :: i < j < |rows| ==> rows[j].key.None?
  {
    if rows != [] {
      var init := rows[..|rows| - 1];
      NextCodeMeaning(init, cursor);
      assert forall i :: 0 <= i < |init| ==> init[i] == rows[i];
      if rows[|rows| - 1].key.None? && exists i :: 0 <= i < |rows| && rows[i].key.Some? {
        var i :| 0 <= i < |rows| && rows[i].key.Some?;
        assert init[i].key.Some?;
      }
    }
  }

  /** What `fetch_all_items` ends with: the exception of a failed connection,
      or the items it collected and the cursor of each request it sent. */
  datatype ItemsRun = Crashed | Fetched(items: seq<Elem>, cursors: seq<string>)

  /** The loop from request `n` on, about to send `cursor`. */
  function ItemsFrom(pages: seq<ItemPage>, n: nat, cursor: string): ItemsRun
    decreases |pages| - n
  {
    match PageAt(pages, n)
    case Raises => Crashed
    case Ends => Fetched([], [cursor])
    case Rows(rows) =>
      if |rows| < PageSize then Fetched(ResultsOf(rows), [cursor])
      else match ItemsFrom(pages, n + 1, NextCode(rows, cursor))
        case Crashed => Crashed
        case Fetched(items, cursors) => Fetched(ResultsOf(rows) + items, [cursor] + cursors)
  }

  /** A run with the items and cursors of earlier pages in front. */
  function After(items: seq<Elem>, cursors: seq<string>, run: ItemsRun): ItemsRun
  {
    match run
    case Crashed => Crashed
    case Fetched(more, cs) => Fetched(items + more, cursors + cs)
  }

  /** The results of pages `from .. to-1`, in order. */
  function ResultsBetween(pages: seq<ItemPage>, from: nat, to: nat): seq<Elem>
    decreases to - from
  {
    if from >= to then []
    else (match PageAt(pages, from) case Rows(rows) => ResultsOf(rows) case _ => [])
         + ResultsBetween(pages, from + 1, to)
  }

  /** Every result of every page read is kept, in page order, with or without
      an `item_code`; the first request sends the starting cursor. */
  lemma {:induction false} ItemsFromResults(pages: seq<ItemPage>, n: nat, cursor: string)
    ensures ItemsFrom(pages, n, cursor).Fetched? ==>
      var run := ItemsFrom(pages, n, cursor);
      |run.cursors| >= 1 && run.cursors[0] == cursor
      && run.items == ResultsBetween(pages, n, n + |run.cursors|)
    decreases |pages| - n
  {
    var run := ItemsFrom(pages, n, cursor);
    if run.Fetched? {
      match PageAt(pages, n) {
        case Ends =>
          assert ResultsBetween(pages, n, n + 1) == [] + ResultsBetween(pages, n + 1, n + 1);
        case Rows(rows) =>
          if |rows| < PageSize {
            assert ResultsBetween(pages, n, n + 1) == ResultsOf(rows) + ResultsBetween(pages, n + 1, n + 1);
          } else {
            var rest := ItemsFrom(pages, n + 1, NextCode(rows, cursor));
            ItemsFromResults(pages, n + 1, NextCode(rows, cursor));
            assert ResultsBetween(pages, n, n + |run.cursors|)
                   == ResultsOf(rows) + ResultsBetween(pages, n + 1, n + 1 + |rest.cursors|);
          }
      }
    }
  }

  /** Every request but the last follows a full page and sends that page's
      cursor: its last `item_code`, or the previous cursor when it has none. */
  lemma {:induction false} ItemsCursorAt(pages: seq<ItemPage>, n: nat, cursor: string, i: nat)
    requires ItemsFrom(pages, n, cursor).Fetched? && i + 1 < |ItemsFrom(pages, n, cursor).cursors|
    ensures PageAt(pages, n + i).Rows? && |PageAt(pages, n + i).rows| >= PageSize
    ensures ItemsFrom(pages, n, cursor).cursors[i + 1]
            == NextCode(PageAt(pages, n + i).rows, ItemsFrom(pages, n, cursor).cursors[i])
    decreases i
  {
    var rows := PageAt(pages, n).rows;
    var next := NextCode(rows, cursor);
    ItemsFromResults(pages, n + 1, next);
    if i > 0 {
      ItemsCursorAt(pages, n + 1, next, i - 1);
      assert n + 1 + (i - 1) == n + i;
    }
  }

  /** The loop stops at the last request it sends: that reply ended the loop
      or held fewer than a full page of results (none included). */
  lemma {:induction false} ItemsLastPage(pages: seq<ItemPage>, n: nat, cursor: string)
    requires ItemsFrom(pages, n, cursor).Fetched?
    ensures var last := PageAt(pages, n + |ItemsFrom(pages, n, cursor).cursors| - 1);
      last.Ends? || (last.Rows? && |last.rows| < PageSize)
    decreases |pages| - n
  {
    ItemsFromResults(pages, n, cursor);
    var p := PageAt(pages, n);
    if p.Rows? && |p.rows| >= PageSize {
      var next := NextCode(p.rows, cursor);
      ItemsLastPage(pages, n + 1, next);
      ItemsFromResults(pages, n + 1, next);
      assert n + 1 + |ItemsFrom(pages, n + 1, next).cursors| - 1 == n + |ItemsFrom(pages, n, cursor).cursors| - 1;
    }
  }

  /** The loop over one page's results: each is appended, and each with an
      `item_code` moves the cursor. */
  method AbsorbPage(results: seq<Elem>, cursor: string, items: seq<Elem>) returns (next: string, after: seq<Elem>)
    ensures next == NextCode(Keyed(results, "item_code"), cursor)
    ensures after == items + ResultsOf(Keyed(results, "item_code"))
  {
    ghost var rows := Keyed(results, "item_code");
    next, after := cursor, items;
    var i := 0;
    while i < |results|
      invariant 0 <= i <= |results|
      invariant next == NextCode(rows[..i], cursor)
      invariant after == items + results[..i]
    {
      assert rows[..i + 1][..i] == rows[..i];
      assert rows[i].key == KeyOf(results[i], "item_code");
      var codeElem := Find(results[i], "item_code");
      if codeElem.Some? && HasText(codeElem.value.text) {
        next := Strip(codeElem.value.text.value);
      }
      after := after + [results[i]];
      assert results[..i + 1] == results[..i] + [results[i]];
      i := i + 1;
    }
    assert rows[..i] == rows && results[..i] == results;
    assert ResultsOf(rows) == results;
  }

  /** The results a page adds to the list: none for a reply that ends the loop. */
  function PageItems(p: ItemPage): seq<Elem>
  {
    if p.Rows? then ResultsOf(p.rows) else []
  }

  /** The URL `fetch_all_items` builds for a cursor. */
  method ItemsRequest(md5: string -> string, authKey: string, account: string, cursor: string) returns (url: string)
    ensures url == ItemsUrl(md5, authKey, account, cursor)
  {
    var query := Field("account", account) + "&" + Field("condition", Condition);
    if cursor != "" {
      query := query + "&" + Field("item_code", cursor);
    }
    url := SignedUrl(md5, BaseUrl(Items), query, authKey);
  }

  /** One pass of the loop after the request: whether the connection failed,
      whether the loop goes on, the new cursor, the items, and the page's count. */
  method ReadItemsPage(responses: seq<Response>, parse: string -> Option<Elem>, ghost pages: seq<ItemPage>,
                       n: nat, cursor: string, items: seq<Elem>)
    returns (crashed: bool, more: bool, next: string, after: seq<Elem>, count: nat)
    requires PagesOfResponses(responses, parse, pages)
    ensures crashed <==> PageAt(pages, n).Raises?
    ensures !crashed ==> after == items + PageItems(PageAt(pages, n)) && count == |PageItems(PageAt(pages, n))|
    ensures !crashed ==> (more <==> PageAt(pages, n).Rows? && |PageAt(pages, n).rows| >= PageSize)
    ensures more ==> PageAt(pages, n).Rows? && next == NextCode(PageAt(pages, n).rows, cursor)
  {
    var response := At(responses, n);
    assert PageAt(pages, n) == PageOfResponse(response, parse);
    if response.RequestError? {
      return true, false, cursor, items, 0;
    }
    if response.status != 200 {
      return false, false, cursor, items + [], 0;
    }
    var root := parse(response.body);
    if root.None? {
      return false, false, cursor, items + [], 0;
    }
    var results := Results(root.value);
    next, after := AbsorbPage(results, cursor, items);
    crashed, count := false, |results|;
    more := |results| >= PageSize;
  }

  /** One request of the loop, as `FetchAllItems` takes it: a run from request
      `n` is the items of page `n` in front of the run from `n + 1` when the page
      is full, and those items alone otherwise. */
  lemma ItemsFromStep(items: seq<Elem>, cursors: seq<string>, pages: seq<ItemPage>, n: nat, cursor: string)
    requires !PageAt(pages, n).Raises?
    ensures var p := PageAt(pages, n);
      After(items, cursors, ItemsFrom(pages, n, cursor))
      == if p.Rows? && |p.rows| >= PageSize
         then After(items + PageItems(p), cursors + [cursor], ItemsFrom(pages, n + 1, NextCode(p.rows, cursor)))
         else Fetched(items + PageItems(p), cursors + [cursor])
  {
    var p := PageAt(pages, n);
    if p.Rows? && |p.rows| >= PageSize {
      match ItemsFrom(pages, n + 1, NextCode(p.rows, cursor)) {
        case Crashed =>
        case Fetched(more, cs) =>
          assert items + (ResultsOf(p.rows) + more) == items + ResultsOf(p.rows) + more;
          assert cursors + ([cursor] + cs) == cursors + [cursor] + cs;
      }
    }
  }

  /** `fetch_all_items`: `responses[i]` answers the `i`-th request, whose URL is
      `urls[i]`. The count it prints is the number of items it returns. */
  method FetchAllItems(md5: string -> string, authKey: string, account: string,
                       responses: seq<Response>, parse: string -> Option<Elem>, ghost pages: seq<ItemPage>)
    returns (run: ItemsRun, urls: seq<string>, total: nat)
    requires PagesOfResponses(responses, parse, pages)
    ensures run == ItemsFrom(pages, 0, "")
    ensures run.Fetched? ==> total == |run.items| && |urls| == |run.cursors|
    ensures run.Fetched? ==> forall i :: 0 <= i < |urls| ==> urls[i] == ItemsUrl(md5, authKey, account, run.cursors[i])
  {
    ghost var whole := ItemsFrom(pages, 0, "");
    var items: seq<Elem> := [];
    var cursors: seq<string> := [];
    urls, total := [], 0;
    var itemCode := "";
    var n := 0;
    while true
      invariant whole == After(items, cursors, ItemsFrom(pages, n, itemCode))
      invariant total == |items| && |urls| == |cursors|
      invariant forall i :: 0 <= i < |urls| ==> urls[i] == ItemsUrl(md5, authKey, account, cursors[i])
      decreases |pages| - n
    {
      var url := ItemsRequest(md5, authKey, account, itemCode);
      urls, cursors := urls + [url], cursors + [itemCode];
      var crashed, more, next, after, count := ReadItemsPage(responses, parse, pages, n, itemCode, items);
      if crashed {
        return Crashed, urls, total;
      }
      ItemsFromStep(items, cursors[..|cursors| - 1], pages, n, itemCode);
      assert cursors[..|cursors| - 1] + [itemCode] == cursors;
      items, total := after, total + count;
      if !more {
        return Fetched(items, cursors), urls, total;
      }
      itemCode := next;
      n := n + 1;
    }
  }

  // ---------------------------------------------------------------------------
  // process_item

  /** `sku_result.findtext("item_sku_code")` when it is non-blank, stripped: the
      code a stock request is sent for. */
  function SkuCode(r: Elem): (c: Option<string>)
    ensures c.Some? ==> Find(r, "item_sku_code").Some?
  {
    match FindText(r, "item_sku_code")
    case Some(t) => if Strip(t) != "" then Some(Strip(t)) else None
    case None => None
  }

  /** The stock reply a SKU result gets: its own fetch, or the `None` placeholder
      that keeps the replies aligned with the SKUs. */
  function StockReply(r: Elem, stock: string -> Reply): Reply
  {
    match SkuCode(r)
    case Some(c) => stock(c)
    case None => NoReply
  }

  /** The `<Stock>` child a stock reply contributes: all its results when it
      parses, nothing otherwise. */
  function StockPart(reply: Reply): seq<Elem>
  {
    match reply
    case Parsed(root) => [Node("Stock", Results(root))]
    case _ => []
  }

  /** The `<Sku>` node of a SKU result: its children, then its `<Stock>`. */
  function SkuNode(r: Elem, stock: string -> Reply): Elem
  {
    Node("Sku", r.children + StockPart(StockReply(r, stock)))
  }

  /** The `<Sku>` nodes of the SKU results, in result order. */
  function SkuNodes(rs: seq<Elem>, stock: string -> Reply): (ns: seq<Elem>)
    ensures |ns| == |rs|
  {
    seq(|rs|, j requires 0 <= j < |rs| => SkuNode(rs[j], stock))
  }

  /** `process_item` as a value. */
  function ProcessedItem(item: Elem, sku: string -> Reply, stock: string -> Reply): Elem
  {
    match KeyOf(item, "item_code")
    case None => item
    case Some(code) =>
      match sku(code)
      case Parsed(root) => item.(children := item.children + [Node("Skus", SkuNodes(Results(root), stock))])
      case _ => item
  }

  /** An item without an `item_code`, or whose SKU fetch fails or does not parse,
      comes back unchanged; any other gets exactly one `<Skus>` after its own
      children, with one `<Sku>` per SKU result in order. */
  lemma ProcessedItemMeaning(item: Elem, sku: string -> Reply, stock: string -> Reply)
    ensures var out := ProcessedItem(item, sku, stock);
      && (out == item <==> KeyOf(item, "item_code").None? || !sku(KeyOf(item, "item_code").value).Parsed?)
      && out.tag == item.tag && out.text == item.text && out.attrs == item.attrs
      && (out != item ==>
            var root := sku(KeyOf(item, "item_code").value).root;
            && |out.children| == |item.children| + 1
            && out.children[..|item.children|] == item.children
            && out.children[|item.children|].tag == "Skus"
            && |out.children[|item.children|].children| == |Results(root)|)
  {
    var out := ProcessedItem(item, sku, stock);
    if out != item {
      assert out.children[..|item.children|] == item.children;
    }
  }

  /** Each `<Sku>` keeps its SKU result's children in order, and has one more
      child, a `<Stock>` holding every stock result, exactly when the SKU has a
      non-blank code whose stock reply parses. */
  lemma SkuNodeMeaning(r: Elem, stock: string -> Reply)
    ensures var n := SkuNode(r, stock);
      && n.tag == "Sku" && n.children[..|r.children|] == r.children
      && (|n.children| == |r.children| + 1 <==> SkuCode(r).Some? && stock(SkuCode(r).value).Parsed?)
      && (|n.children| == |r.children| ==> SkuCode(r).None? || !stock(SkuCode(r).value).Parsed?)
      && (|n.children| > |r.children| ==>
            n.children[|r.children|] == Node("Stock", Results(stock(SkuCode(r).value).root)))
  {
    assert SkuNode(r, stock).children[..|r.children|] == r.children;
  }

  /** The `<Sku>` nodes while the zip loop is at SKU `j`: the first `j` have
      their stock, the rest only their own children. */
  function StockedUpTo(rs: seq<Elem>, stock: string -> Reply, j: nat): (ns: seq<Elem>)
    ensures |ns| == |rs|
  {
    seq(|rs|, k requires 0 <= k < |rs| => if k < j then SkuNode(rs[k], stock) else Node("Sku", rs[k].children))
  }

  /** The SKU loop of `process_item`: a bare `<Sku>` per SKU result, and the
      stock reply of each, the `None` placeholder where there is no code. */
  method ScheduleSkus(rs: seq<Elem>, stock: string -> Reply) returns (skus: seq<Elem>, replies: seq<Reply>)
    ensures skus == StockedUpTo(rs, stock, 0)
    ensures |replies| == |rs| && forall k :: 0 <= k < |rs| ==> replies[k] == StockReply(rs[k], stock)
  {
    skus, replies := [], [];
    var j := 0;
    while j < |rs|
      invariant 0 <= j <= |rs|
      invariant |skus| == |replies| == j
      invariant forall k :: 0 <= k < j ==> skus[k] == Node("Sku", rs[k].children) && replies[k] == StockReply(rs[k], stock)
    {
      var skuElem := CopyChildren("Sku", rs[j].children);
      var skuCode := FindText(rs[j], "item_sku_code");
      if skuCode.Some? && skuCode.value != "" && Strip(skuCode.value) != "" {
        replies := replies + [stock(Strip(skuCode.value))];
      } else {
        replies := replies + [NoReply];
      }
      skus := skus + [skuElem];
      j := j + 1;
    }
  }

  /** The zip loop of `process_item`: each parsed stock reply becomes a
      `<Stock>` appended to its own `<Sku>`. */
  method AttachStock(rs: seq<Elem>, stock: string -> Reply, skus: seq<Elem>, replies: seq<Reply>)
    returns (stocked: seq<Elem>)
    requires skus == StockedUpTo(rs, stock, 0)
    requires |replies| == |rs| && forall k :: 0 <= k < |rs| ==> replies[k] == StockReply(rs[k], stock)
    ensures stocked == SkuNodes(rs, stock)
  {
    stocked := skus;
    var j := 0;
    while j < |stocked|
      invariant 0 <= j <= |stocked|
      invariant stocked == StockedUpTo(rs, stock, j)
    {
      ghost var before := stocked;
      match replies[j] {
        case Parsed(stockRoot) =>
          var container := CopyChildren("Stock", Results(stockRoot));
          stocked := stocked[j := stocked[j].(children := stocked[j].children + [container])];
        case _ =>
          assert rs[j].children + StockPart(replies[j]) == rs[j].children;
      }
      assert stocked[j] == SkuNode(rs[j], stock);
      assert forall k :: 0 <= k < |rs| && k != j ==> stocked[k] == before[k];
      j := j + 1;
    }
  }

  /** `process_item`. */
  method ProcessItem(item: Elem, sku: string -> Reply, stock: string -> Reply) returns (out: Elem)
    ensures out == ProcessedItem(item, sku, stock)
  {
    var codeElem := Find(item, "item_code");
    if codeElem.None? || !HasText(codeElem.value.text) {
      return item;
    }
    var code := Strip(codeElem.value.text.value);
    var skuReply := sku(code);
    if !skuReply.Parsed? {
      return item;
    }
    var rs := Results(skuReply.root);
    var skus, replies := ScheduleSkus(rs, stock);
    if |replies| > 0 {
      skus := AttachStock(rs, stock, skus, replies);
    } else {
      assert skus == SkuNodes(rs, stock);
    }
    var skusElem := CopyChildren("Skus", skus);
    out := item.(children := item.children + [skusElem]);
  }

  /** The processed items, in item order. */
  function ProcessedItems(items: seq<Elem>, sku: string -> Reply, stock: string -> Reply): (ps: seq<Elem>)
    ensures |ps| == |items|
  {
    seq(|items|, i requires 0 <= i < |items| => ProcessedItem(items[i], sku, stock))
  }

  /** `process_all_items` and the `<Items>` root `main` builds: one processed item
      per fetched item, in the order they were fetched. */
  method BuildItemsTree(items: seq<Elem>, sku: string -> Reply, stock: string -> Reply) returns (root: Elem)
    ensures root == Node("Items", ProcessedItems(items, sku, stock))
  {
    var processed: seq<Elem> := [];
    var i := 0;
    while i < |items|
      invariant 0 <= i <= |items|
      invariant processed == ProcessedItems(items[..i], sku, stock)
    {
      var p := ProcessItem(items[i], sku, stock);
      processed := processed + [p];
      i := i + 1;
    }
    assert items[..i] == items;
    root := CopyChildren("Items", processed);
  }

  /** Item `i` of the tree is item `i` of the list, with its own tag, attributes
      and children first. */
  lemma ProcessedItemsKeepOrder(items: seq<Elem>, sku: string -> Reply, stock: string -> Reply, i: nat)
    requires i < |items|
    ensures var p := ProcessedItems(items, sku, stock)[i];
      p.tag == items[i].tag && p.attrs == items[i].attrs
      && |items[i].children| <= |p.children| && p.children[..|items[i].children|] == items[i].children
  {
    ProcessedItemMeaning(items[i], sku, stock);
  }
}

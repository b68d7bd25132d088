/**
 * The CSV export (generate-csv.py): the stock table read from the item tree,
 * the order-item table read from the order tree, and the filter that keeps
 * only stock rows with a stock value. The tables are sequences of row records;
 * the CSV writing itself is not part of this model.
 */
module CsvExport {

  import opened Xml

  // ---------------------------------------------------------------------------
  // Concatenation of the rows of nested loops

  /** The lists one after the other. */
  function Concat<T>(xss: seq<seq<T>>): seq<T>
  {
    if xss == [] then [] else Concat(xss[..|xss| - 1]) + xss[|xss| - 1]
  }

  /** Concatenating one more list appends it. */
  lemma ConcatSnoc<T>(xss: seq<seq<T>>, i: nat)
    requires i < |xss|
    ensures Concat(xss[..i + 1]) == Concat(xss[..i]) + xss[i]
  {
    assert xss[..i + 1][..i] == xss[..i];
  }

  /** An element is in the concatenation exactly when it is in one of the lists. */
  lemma {:induction false} ConcatMember<T>(xss: seq<seq<T>>, x: T)
    ensures x in Concat(xss) <==> exists i :: 0 <= i < |xss| && x in xss[i]
  {
    if xss != [] {
      var n := |xss| - 1;
      ConcatMember(xss[..n], x);
      assert forall i :: 0 <= i < n ==> xss[..n][i] == xss[i];
    }
  }

  // ---------------------------------------------------------------------------
  // parse_stock_minimal

  /** One stock row: `item_sku_code`, `stock` and `jan_code`, each None when the
      element is missing (the JAN code never is). */
  datatype StockRow = StockRow(itemSkuCode: Option<string>, stock: Option<string>, janCode: string)

  /** `stock` of the first `Result` of the first `Stock`, None when either is missing. */
  function StockValue(sku: Elem): Option<string>
  {
    match Find(sku, "Stock")
    case None => None
    case Some(st) =>
      match Find(st, "Result")
      case None => None
      case Some(r) => FindText(r, "stock")
  }

  /** The row of one `<Sku>`, None when its `jan_code` is missing or empty. */
  function SkuRow(sku: Elem): Option<StockRow>
  {
    match FindText(sku, "jan_code")
    case Some(jan) => if jan != "" then Some(StockRow(FindText(sku, "item_sku_code"), StockValue(sku), jan)) else None
    case None => None
  }

  /** The rows of a list of `<Sku>`s, in order. */
  function SkuRows(skus: seq<Elem>): (rows: seq<StockRow>)
    ensures |rows| <= |skus|
  {
    if skus == [] then []
    else
      var last := skus[|skus| - 1];
      SkuRows(skus[..|skus| - 1]) + (if SkuRow(last).Some? then [SkuRow(last).value] else [])
  }

  /** The rows of one top-level `<Result>`: none without `<Skus>`, else those of
      the `<Sku>` children of its first `<Skus>`. */
  function ResultRows(result: Elem): seq<StockRow>
  {
    match Find(result, "Skus")
    case None => []
    case Some(skus) => SkuRows(ChildrenTagged(skus.children, "Sku"))
  }

  /** The rows of each top-level result. */
  function PerResult(results: seq<Elem>): (rss: seq<seq<StockRow>>)
    ensures |rss| == |results|
  {
    seq(|results|, i requires 0 <= i < |results| => ResultRows(results[i]))
  }

  /** `parse_stock_minimal` over the root's `<Result>` children. */
  function StockTable(root: Elem): seq<StockRow>
  {
    Concat(PerResult(ChildrenTagged(root.children, "Result")))
  }

  /** A `<Sku>` yields a row exactly when its `jan_code` has text, and the row
      carries that code, the SKU code and the stock value. */
  lemma SkuRowMeaning(sku: Elem)
    ensures SkuRow(sku).Some? <==> Find(sku, "jan_code").Some? && HasText(Find(sku, "jan_code").value.text)
    ensures SkuRow(sku).Some? ==>
      && SkuRow(sku).value.janCode == Find(sku, "jan_code").value.text.value
      && SkuRow(sku).value.itemSkuCode == FindText(sku, "item_sku_code")
      && SkuRow(sku).value.stock == StockValue(sku)
  {
  }

  /** The stock value is present exactly when the `<Sku>` has a `<Stock>` whose
      first `<Result>` has a `stock` child; it is that child's text, "" without one. */
  lemma StockValueMeaning(sku: Elem)
    ensures StockValue(sku).Some? <==>
      Find(sku, "Stock").Some? && Find(Find(sku, "Stock").value, "Result").Some?
      && Find(Find(Find(sku, "Stock").value, "Result").value, "stock").Some?
    ensures StockValue(sku).Some? ==>
      var t := Find(Find(Find(sku, "Stock").value, "Result").value, "stock").value.text;
      StockValue(sku).value == if t.Some? then t.value else ""
  {
  }

  /** The rows of a list of `<Sku>`s are the rows of those with a JAN code, in
      order: each row comes from a `<Sku>`, and each `<Sku>` with a row has it. */
  lemma {:induction false} SkuRowsMeaning(skus: seq<Elem>)
    ensures forall r :: r in SkuRows(skus) ==> r.janCode != "" && exists s :: s in skus && SkuRow(s) == Some(r)
    ensures forall s :: s in skus && SkuRow(s).Some? ==> SkuRow(s).value in SkuRows(skus)
  {
    if skus != [] {
      var init := skus[..|skus| - 1];
      SkuRowsMeaning(init);
      assert skus == init + [skus[|skus| - 1]];
    }
  }

  /** Every row of the table comes from a top-level `<Result>` that has `<Skus>`,
      and every top-level result's rows are in the table; a result without
      `<Skus>` contributes none. */
  lemma StockTableMeaning(root: Elem, row: StockRow)
    ensures row in StockTable(root) <==>
      exists r :: r in ChildrenTagged(root.children, "Result") && Find(r, "Skus").Some? && row in ResultRows(r)
  {
    var results := ChildrenTagged(root.children, "Result");
    var rss := PerResult(results);
    ConcatMember(rss, row);
    if row in StockTable(root) {
      var i :| 0 <= i < |rss| && row in rss[i];
      assert results[i] in results;
    }
    if exists r :: r in results && Find(r, "Skus").Some? && row in ResultRows(r) {
      var r :| r in results && Find(r, "Skus").Some? && row in ResultRows(r);
      var i :| 0 <= i < |results| && results[i] == r;
      assert row in rss[i];
    }
  }

  /** One more `<Sku>` appends its row, if it has one, after the rows so far. */
  lemma SkuRowsStep(rows: seq<StockRow>, skus: seq<Elem>, j: nat)
    requires j < |skus|
    ensures rows + SkuRows(skus[..j + 1]) ==
      (rows + SkuRows(skus[..j])) + (if SkuRow(skus[j]).Some? then [SkuRow(skus[j]).value] else [])
  {
    assert skus[..j + 1][..j] == skus[..j];
  }

  /** The inner loop over one `<Skus>`. */
  method CollectSkuRows(skus: seq<Elem>, rows: seq<StockRow>) returns (after: seq<StockRow>)
    ensures after == rows + SkuRows(skus)
  {
    after := rows;
    var j := 0;
    while j < |skus|
      invariant 0 <= j <= |skus|
      invariant after == rows + SkuRows(skus[..j])
    {
      SkuRowsStep(rows, skus, j);
      ghost var row := SkuRow(skus[j]);
      ghost var before := after;
      var itemSkuCode := FindText(skus[j], "item_sku_code");
      var janCode := FindText(skus[j], "jan_code");
      if janCode.Some? && janCode.value != "" {
        var stockValue: Option<string> := None;
        var stockTag := Find(skus[j], "Stock");
        if stockTag.Some? {
          var stockResult := Find(stockTag.value, "Result");
          if stockResult.Some? {
            stockValue := FindText(stockResult.value, "stock");
          }
        }
        after := after + [StockRow(itemSkuCode, stockValue, janCode.value)];
      }
      assert after == before + (if row.Some? then [row.value] else []);
      j := j + 1;
    }
    assert skus[..j] == skus;
  }

  /** `parse_stock_minimal`. */
  method ParseStockMinimal(root: Elem) returns (rows: seq<StockRow>)
    ensures rows == StockTable(root)
  {
    var results := ChildrenTagged(root.children, "Result");
    ghost var rss := PerResult(results);
    rows := [];
    var i := 0;
    while i < |results|
      invariant 0 <= i <= |results|
      invariant rows == Concat(rss[..i])
    {
      ConcatSnoc(rss, i);
      assert rss[i] == ResultRows(results[i]);
      var skus := Find(results[i], "Skus");
      if skus.Some? {
        rows := CollectSkuRows(ChildrenTagged(skus.value.children, "Sku"), rows);
      } else {
        assert rows + [] == rows;
      }
      i := i + 1;
    }
    assert rss[..i] == rss;
  }

  /** A stock value that is neither missing nor empty. */
  predicate HasStock(r: StockRow)
  {
    r.stock.Some? && r.stock.value != ""
  }

  /** `stock_df[stock_df["stock"].notna() & (stock_df["stock"] != "")]`. */
  function WithStock(rows: seq<StockRow>): (kept: seq<StockRow>)
    ensures |kept| <= |rows|
  {
    if rows == [] then []
    else
      var last := rows[|rows| - 1];
      WithStock(rows[..|rows| - 1]) + (if HasStock(last) then [last] else [])
  }

  /** The filter keeps exactly the rows with a non-empty stock value. */
  lemma {:induction false} WithStockMeaning(rows: seq<StockRow>)
    ensures forall r :: r in WithStock(rows) <==> r in rows && HasStock(r)
  {
    if rows != [] {
      var init := rows[..|rows| - 1];
      WithStockMeaning(init);
      assert rows == init + [rows[|rows| - 1]];
    }
  }

  /** Filtering a filtered table changes nothing. */
  lemma {:induction false} WithStockIdempotent(rows: seq<StockRow>)
    ensures WithStock(WithStock(rows)) == WithStock(rows)
  {
    if rows != [] {
      var init, last := rows[..|rows| - 1], rows[|rows| - 1];
      WithStockIdempotent(init);
      if HasStock(last) {
        var w := WithStock(init) + [last];
        assert WithStock(rows) == w;
        assert w[..|w| - 1] == WithStock(init) && w[|w| - 1] == last;
        assert WithStock(w) == WithStock(WithStock(init)) + [last];
      } else {
        assert WithStock(rows) == WithStock(init);
      }
    }
  }

  // ---------------------------------------------------------------------------
  // parse_order_items

  /** One order-item row: `order_number`, `item_code`, `jan_code`, `amount`. */
  datatype OrderItem = OrderItem(orderNumber: Option<string>, itemCode: Option<string>, janCode: string,
                                 amount: Option<string>)

  /** The main row of an `<OrderDetail>`, when its `jan_cd` is non-empty. */
  function MainItem(detail: Elem): (items: seq<OrderItem>)
    ensures |items| <= 1
  {
    match FindText(detail, "jan_cd")
    case Some(jan) =>
      if jan != "" then [OrderItem(FindText(detail, "order_number"), FindText(detail, "item_code"), jan,
                                   FindText(detail, "amount"))]
      else []
    case None => []
  }

  /** The row of a `<Component>` under an order number, when its `jan_cd` is non-empty. */
  function ComponentItem(orderNumber: Option<string>, comp: Elem): Option<OrderItem>
  {
    match FindText(comp, "jan_cd")
    case Some(jan) =>
      if jan != "" then Some(OrderItem(orderNumber, FindText(comp, "item_code"), jan, FindText(comp, "component_count")))
      else None
    case None => None
  }

  /** The component rows of a list of `<Component>`s, in order. */
  function ComponentItems(orderNumber: Option<string>, comps: seq<Elem>): (items: seq<OrderItem>)
    ensures |items| <= |comps|
  {
    if comps == [] then []
    else
      var c := ComponentItem(orderNumber, comps[|comps| - 1]);
      ComponentItems(orderNumber, comps[..|comps| - 1]) + (if c.Some? then [c.value] else [])
  }

  /** The component rows of an `<OrderDetail>`: those of the `<Component>`
      children of its first `<Components>`. */
  function DetailComponents(detail: Elem): seq<OrderItem>
  {
    match Find(detail, "Components")
    case None => []
    case Some(cs) => ComponentItems(FindText(detail, "order_number"), ChildrenTagged(cs.children, "Component"))
  }

  /** The rows of one `<OrderDetail>`: its main row, then its component rows. */
  function DetailItems(detail: Elem): seq<OrderItem>
  {
    MainItem(detail) + DetailComponents(detail)
  }

  /** The rows of each `<OrderDetail>`. */
  function PerDetail(details: seq<Elem>): (iss: seq<seq<OrderItem>>)
    ensures |iss| == |details|
  {
    seq(|details|, j requires 0 <= j < |details| => DetailItems(details[j]))
  }

  /** The rows of one `<Order>`: those of its `<OrderDetail>` children. */
  function OrderRows(order: Elem): seq<OrderItem>
  {
    Concat(PerDetail(ChildrenTagged(order.children, "OrderDetail")))
  }

  /** The rows of each `<Order>`. */
  function PerOrder(orders: seq<Elem>): (iss: seq<seq<OrderItem>>)
    ensures |iss| == |orders|
  {
    seq(|orders|, i requires 0 <= i < |orders| => OrderRows(orders[i]))
  }

  /** `parse_order_items` over the root's `<Order>` children. */
  function OrderItemsTable(root: Elem): seq<OrderItem>
  {
    Concat(PerOrder(ChildrenTagged(root.children, "Order")))
  }

  /** Component rows carry the detail's order number and a non-empty JAN code,
      each comes from a component with one, and every such component has its row. */
  lemma {:induction false} ComponentItemsMeaning(orderNumber: Option<string>, comps: seq<Elem>)
    ensures forall r :: r in ComponentItems(orderNumber, comps) ==>
      r.orderNumber == orderNumber && r.janCode != "" && exists c :: c in comps && ComponentItem(orderNumber, c) == Some(r)
    ensures forall c :: c in comps && ComponentItem(orderNumber, c).Some? ==>
      ComponentItem(orderNumber, c).value in ComponentItems(orderNumber, comps)
  {
    if comps != [] {
      var init := comps[..|comps| - 1];
      ComponentItemsMeaning(orderNumber, init);
      assert comps == init + [comps[|comps| - 1]];
    }
  }

  /** A detail's main row, when it has one, comes first and has the detail's
      `amount`; the component rows come after it; all of them carry the
      detail's `order_number` and a non-empty JAN code. */
  lemma DetailItemsMeaning(detail: Elem)
    ensures var items := DetailItems(detail);
      && (|MainItem(detail)| == 1 <==> FindText(detail, "jan_cd").Some? && FindText(detail, "jan_cd").value != "")
      && items[..|MainItem(detail)|] == MainItem(detail)
      && (|MainItem(detail)| == 1 ==> items[0].amount == FindText(detail, "amount"))
      && forall r :: r in items ==> r.orderNumber == FindText(detail, "order_number") && r.janCode != ""
  {
    var items := DetailItems(detail);
    assert items[..|MainItem(detail)|] == MainItem(detail);
    match Find(detail, "Components") {
      case None =>
      case Some(cs) => ComponentItemsMeaning(FindText(detail, "order_number"), ChildrenTagged(cs.children, "Component"));
    }
  }

  /** The rows of an `<Order>` are those of its `<OrderDetail>` children. */
  lemma OrderRowsMeaning(order: Elem, item: OrderItem)
    ensures item in OrderRows(order) <==>
      exists d :: d in ChildrenTagged(order.children, "OrderDetail") && item in DetailItems(d)
  {
    var ds := ChildrenTagged(order.children, "OrderDetail");
    var per := PerDetail(ds);
    ConcatMember(per, item);
    if item in OrderRows(order) {
      var j :| 0 <= j < |per| && item in per[j];
      assert ds[j] in ds && item in DetailItems(ds[j]);
    }
    if exists d :: d in ds && item in DetailItems(d) {
      var d :| d in ds && item in DetailItems(d);
      var j :| 0 <= j < |ds| && ds[j] == d;
      assert item in per[j];
    }
  }

  /** Only `<OrderDetail>`s that are direct children of a top-level `<Order>` are
      read: every row of the table comes from one of them, and each of their
      rows is in the table. */
  lemma OrderItemsTableMeaning(root: Elem, item: OrderItem)
    ensures item in OrderItemsTable(root) <==>
      exists o, d :: o in ChildrenTagged(root.children, "Order") && d in ChildrenTagged(o.children, "OrderDetail")
                     && item in DetailItems(d)
  {
    if item in OrderItemsTable(root) {
      OrderItemsTableFrom(root, item);
    }
    if exists o, d :: o in ChildrenTagged(root.children, "Order") && d in ChildrenTagged(o.children, "OrderDetail")
                      && item in DetailItems(d) {
      var o, d :| o in ChildrenTagged(root.children, "Order") && d in ChildrenTagged(o.children, "OrderDetail")
                  && item in DetailItems(d);
      OrderItemsTableHas(root, o, d, item);
    }
  }

  lemma OrderItemsTableFrom(root: Elem, item: OrderItem)
    requires item in OrderItemsTable(root)
    ensures exists o, d :: o in ChildrenTagged(root.children, "Order") && d in ChildrenTagged(o.children, "OrderDetail")
                           && item in DetailItems(d)
  {
    var orders := ChildrenTagged(root.children, "Order");
    var per := PerOrder(orders);
    ConcatMember(per, item);
    var i :| 0 <= i < |per| && item in per[i];
    OrderRowsMeaning(orders[i], item);
    var d :| d in ChildrenTagged(orders[i].children, "OrderDetail") && item in DetailItems(d);
    assert orders[i] in orders;
  }

  lemma OrderItemsTableHas(root: Elem, o: Elem, d: Elem, item: OrderItem)
    requires o in ChildrenTagged(root.children, "Order") && d in ChildrenTagged(o.children, "OrderDetail")
    requires item in DetailItems(d)
    ensures item in OrderItemsTable(root)
  {
    var orders := ChildrenTagged(root.children, "Order");
    var per := PerOrder(orders);
    var i :| 0 <= i < |orders| && orders[i] == o;
    OrderRowsMeaning(o, item);
    assert item in per[i];
    ConcatMember(per, item);
  }

  /** The inner loop over one `<Components>`. */
  method CollectComponents(orderNumber: Option<string>, comps: seq<Elem>) returns (rows: seq<OrderItem>)
    ensures rows == ComponentItems(orderNumber, comps)
  {
    rows := [];
    var k := 0;
    while k < |comps|
      invariant 0 <= k <= |comps|
      invariant rows == ComponentItems(orderNumber, comps[..k])
    {
      assert comps[..k + 1][..k] == comps[..k];
      ghost var c := ComponentItem(orderNumber, comps[k]);
      ghost var before := rows;
      var compItemCode := FindText(comps[k], "item_code");
      var compJan := FindText(comps[k], "jan_cd");
      var compCount := FindText(comps[k], "component_count");
      if compJan.Some? && compJan.value != "" {
        rows := rows + [OrderItem(orderNumber, compItemCode, compJan.value, compCount)];
      }
      assert rows == before + (if c.Some? then [c.value] else []);
      k := k + 1;
    }
    assert comps[..k] == comps;
  }

  /** The body of the detail loop: the main row, then the component rows. */
  method CollectDetail(detail: Elem) returns (rows: seq<OrderItem>)
    ensures rows == DetailItems(detail)
  {
    var orderNumber := FindText(detail, "order_number");
    var janCode := FindText(detail, "jan_cd");
    rows := [];
    if janCode.Some? && janCode.value != "" {
      rows := rows + [OrderItem(orderNumber, FindText(detail, "item_code"), janCode.value, FindText(detail, "amount"))];
    }
    assert rows == MainItem(detail);
    var components := Find(detail, "Components");
    if components.Some? {
      var componentRows := CollectComponents(orderNumber, ChildrenTagged(components.value.children, "Component"));
      rows := rows + componentRows;
    } else {
      assert rows + [] == rows;
    }
  }

  /** The detail loop over one `<Order>`. */
  method CollectOrder(order: Elem) returns (rows: seq<OrderItem>)
    ensures rows == OrderRows(order)
  {
    var details := ChildrenTagged(order.children, "OrderDetail");
    ghost var perDetail := PerDetail(details);
    rows := [];
    var j := 0;
    while j < |details|
      invariant 0 <= j <= |details|
      invariant rows == Concat(perDetail[..j])
    {
      ConcatSnoc(perDetail, j);
      var detailRows := CollectDetail(details[j]);
      rows := rows + detailRows;
      j := j + 1;
    }
    assert perDetail[..j] == perDetail;
  }

  /** `parse_order_items`: the loop over the `<Order>`s and, inside it, the loop
      over each one's `<OrderDetail>`s. */
  method ParseOrderItems(root: Elem) returns (items: seq<OrderItem>)
    ensures items == OrderItemsTable(root)
  {
    var orders := ChildrenTagged(root.children, "Order");
    ghost var perOrder := PerOrder(orders);
    items := [];
    var i := 0;
    while i < |orders|
      invariant 0 <= i <= |orders|
      invariant items == Concat(perOrder[..i])
    {
      ConcatSnoc(perOrder, i);
      var orderRows := CollectOrder(orders[i]);
      items := items + orderRows;
      i := i + 1;
    }
    assert perOrder[..i] == perOrder;
  }

  // ---------------------------------------------------------------------------
  // The main block

  /** How the main block ends. A DataFrame built from no records has no
      columns, so on an empty stock table the filter's `stock_df["stock"]`
      raises `KeyError` before either CSV file is written; otherwise both
      tables are written, the stock table filtered. */
  datatype Export = StockColumnMissing | Written(stock: seq<StockRow>, orderItems: seq<OrderItem>)

  function ExportTables(items: Elem, orders: Elem): Export
  {
    var stock := StockTable(items);
    if stock == [] then StockColumnMissing else Written(WithStock(stock), OrderItemsTable(orders))
  }

  /** No `<Sku>` of a top-level `<Result>` yields a row. */
  predicate NoSkuRows(items: Elem)
  {
    forall r, sku ::
      (r in ChildrenTagged(items.children, "Result") && Find(r, "Skus").Some?
       && sku in ChildrenTagged(Find(r, "Skus").value.children, "Sku")) ==> SkuRow(sku).None?
  }

  /** The export fails exactly when no `<Sku>` under a top-level `<Result>` has
      a JAN code; otherwise stock.csv gets exactly the stock rows with a stock
      value and order_items.csv the whole order-item table. */
  lemma ExportMeaning(items: Elem, orders: Elem)
    ensures ExportTables(items, orders).StockColumnMissing? <==> NoSkuRows(items)
    ensures ExportTables(items, orders).Written? ==>
      && (forall row :: row in ExportTables(items, orders).stock <==> row in StockTable(items) && HasStock(row))
      && ExportTables(items, orders).orderItems == OrderItemsTable(orders)
  {
    var table := StockTable(items);
    WithStockMeaning(table);
    if table != [] {
      var row := table[0];
      StockTableMeaning(items, row);
      var r :| r in ChildrenTagged(items.children, "Result") && Find(r, "Skus").Some? && row in ResultRows(r);
      var skus := ChildrenTagged(Find(r, "Skus").value.children, "Sku");
      SkuRowsMeaning(skus);
      var sku :| sku in skus && SkuRow(sku) == Some(row);
      assert !NoSkuRows(items);
    } else {
      forall r, sku | r in ChildrenTagged(items.children, "Result") && Find(r, "Skus").Some?
        && sku in ChildrenTagged(Find(r, "Skus").value.children, "Sku")
        ensures SkuRow(sku).None?
      {
        var skus := ChildrenTagged(Find(r, "Skus").value.children, "Sku");
        SkuRowsMeaning(skus);
        if SkuRow(sku).Some? {
          StockTableMeaning(items, SkuRow(sku).value);
        }
      }
    }
  }
}

/**
 * The requests and the order list of the date-range script
 * (customdate_get_order_detail_component_parallel.py): signed requests with
 * exponential-backoff retries, and the paginated order list of one date.
 */
module CustomdateOrders {

  import opened Strings
  import opened Xml
  import opened Signing
  import opened Transport
  import opened ResultKeys

  // ---------------------------------------------------------------------------
  // Requests

  datatype Endpoint = OrderList | OrderDetail | OrderComponent

  function BaseUrl(e: Endpoint): string
  {
    match e
    case OrderList => "https://crossmall.jp/webapi2/get_order"
    case OrderDetail => "https://crossmall.jp/webapi2/get_order_detail"
    case OrderComponent => "https://crossmall.jp/webapi2/get_order_component"
  }

  /** A parameter value: None, a single value, or a list sent as repeated keys. */
  datatype Param = Absent | Text(s: string) | Items(xs: seq<string>)

  /** The query fields one parameter contributes, in order. */
  function FieldsOf(key: string, v: Param): seq<string>
  {
    match v
    case Absent => []
    case Text(s) => [Field(key, s)]
    case Items(xs) => seq(|xs|, i requires 0 <= i < |xs| => Field(key, xs[i]))
  }

  /** The query fields of a parameter dictionary, in insertion order. */
  function QueryFields(params: seq<(string, Param)>): seq<string>
  {
    if params == [] then []
    else QueryFields(params[..|params| - 1]) + FieldsOf(params[|params| - 1].0, params[|params| - 1].1)
  }

  /** Each parameter contributes its fields independently, in the dictionary's order. */
  lemma {:induction false} QueryFieldsAppend(a: seq<(string, Param)>, b: seq<(string, Param)>)
    ensures QueryFields(a + b) == QueryFields(a) + QueryFields(b)
    decreases |b|
  {
    if b == [] {
      assert a + b == a;
    } else {
      var b', last := b[..|b| - 1], b[|b| - 1];
      var f := FieldsOf(last.0, last.1);
      assert QueryFields(a + b) == QueryFields(a + b') + f by {
        assert (a + b)[..|a + b| - 1] == a + b';
        assert (a + b)[|a + b| - 1] == last;
      }
      QueryFieldsAppend(a, b');
    }
  }

  /** A parameter set to None sends nothing. */
  lemma AbsentParamSendsNothing(a: seq<(string, Param)>, key: string, b: seq<(string, Param)>)
    ensures QueryFields(a + [(key, Absent)] + b) == QueryFields(a + b)
  {
    QueryFieldsAppend(a + [(key, Absent)], b);
    QueryFieldsAppend(a, b);
    assert (a + [(key, Absent)])[..|a|] == a;
  }

  /** `async_make_request`'s closed form: the first 2xx response wins; each
      failure but the last is followed by a pause of `delay * 2^(attempt-1)`. */
  function BackoffTrace(script: seq<Response>, maxRetries: nat, delay: nat): Trace
  {
    var k := FirstAccepted(script, maxRetries, Is2xx);
    if k < maxRetries then Trace(Some(At(script, k).body), k + 1, Backoff(delay, k))
    else Trace(None, maxRetries, Backoff(delay, if maxRetries == 0 then 0 else maxRetries - 1))
  }

  /** The pauses after the first `n` failures: `delay`, `2*delay`, `4*delay`, ... */
  function Backoff(delay: nat, n: nat): (s: seq<nat>)
    ensures |s| == n
  {
    if n == 0 then [] else Backoff(delay, n - 1) + [delay * Pow2(n - 1)]
  }

  /** The pause after failure `k + 1` is `delay * 2^k`. */
  lemma {:induction false} BackoffMeaning(delay: nat, n: nat)
    ensures forall k :: 0 <= k < n ==> Backoff(delay, n)[k] == delay * Pow2(k)
  {
    if n > 0 {
      BackoffMeaning(delay, n - 1);
    }
  }

  /** One list-valued parameter: `query_parts.append(f"{key}={item}")` for each item. */
  method AppendItems(parts: seq<string>, key: string, xs: seq<string>) returns (r: seq<string>)
    ensures r == parts + FieldsOf(key, Items(xs))
  {
    r := parts;
    var j := 0;
    while j < |xs|
      invariant 0 <= j <= |xs|
      invariant r == parts + FieldsOf(key, Items(xs[..j]))
    {
      r := r + [Field(key, xs[j])];
      j := j + 1;
    }
    assert xs[..j] == xs;
  }

  /** The `query_parts` loop of `async_make_request`: parameters in insertion
      order, None skipped, lists expanded. */
  method QueryParts(params: seq<(string, Param)>) returns (parts: seq<string>)
    ensures parts == QueryFields(params)
  {
    parts := [];
    var i := 0;
    while i < |params|
      invariant 0 <= i <= |params|
      invariant parts == QueryFields(params[..i])
    {
      assert params[..i + 1][..i] == params[..i];
      var (key, value) := params[i];
      match value {
        case Absent =>
        case Text(s) =>
          parts := parts + [Field(key, s)];
        case Items(xs) =>
          parts := AppendItems(parts, key, xs);
      }
      i := i + 1;
    }
    assert params[..i] == params;
  }

  /** The request URL of `async_make_request`: the fields joined with `&`, then
      signed. */
  method RequestUrl(md5: string -> string, authKey: string, endpoint: Endpoint, params: seq<(string, Param)>)
    returns (url: string)
    ensures url == SignedUrl(md5, BaseUrl(endpoint), Join(QueryFields(params), '&'), authKey)
  {
    var parts := QueryParts(params);
    url := SignedUrl(md5, BaseUrl(endpoint), Join(parts, '&'), authKey);
  }

  /** The retry loop of `async_make_request` over the outcomes of its attempts:
      `raise_for_status` rejects every status outside 2xx, and every failure is
      retried after a pause that doubles each time. */
  method Retry(script: seq<Response>, maxRetries: nat, delay: nat) returns (t: Trace)
    ensures t == BackoffTrace(script, maxRetries, delay)
  {
    ghost var first := FirstAccepted(script, maxRetries, Is2xx);
    var attempts := 0;
    var sleeps: seq<nat> := [];
    while attempts < maxRetries
      invariant attempts == 0 || attempts < maxRetries
      invariant attempts <= first
      invariant sleeps == Backoff(delay, attempts)
    {
      var response := At(script, attempts);
      if Is2xx(response) {
        return Trace(Some(response.body), attempts + 1, sleeps);
      }
      attempts := attempts + 1;
      if attempts < maxRetries {
        sleeps := sleeps + [delay * Pow2(attempts - 1)];
      } else {
        return Trace(None, attempts, sleeps);
      }
    }
    t := Trace(None, attempts, sleeps);
  }

  /** `async_make_request`: builds the signed URL, then runs the retry loop. */
  method MakeRequest(md5: string -> string, authKey: string, endpoint: Endpoint, params: seq<(string, Param)>,
                     script: seq<Response>, maxRetries: nat, delay: nat)
    returns (url: string, t: Trace)
    ensures url == SignedUrl(md5, BaseUrl(endpoint), Join(QueryFields(params), '&'), authKey)
    ensures t == BackoffTrace(script, maxRetries, delay)
  {
    url := RequestUrl(md5, authKey, endpoint, params);
    t := Retry(script, maxRetries, delay);
  }

  /** The first `n` pauses add up to `delay * (2^n - 1)`: `delay + 2*delay` for
      the two pauses of three failed attempts. */
  lemma {:induction false} BackoffTotal(delay: nat, n: nat)
    ensures Sum(Backoff(delay, n)) + delay == delay * Pow2(n)
  {
    if n > 0 {
      BackoffTotal(delay, n - 1);
      assert Sum(Backoff(delay, n)) == Sum(Backoff(delay, n - 1)) + delay * Pow2(n - 1) by {
        assert Backoff(delay, n)[..n - 1] == Backoff(delay, n - 1);
      }
      assert delay * Pow2(n) == delay * Pow2(n - 1) + delay * Pow2(n - 1) by {
        Distribute(delay, Pow2(n - 1), Pow2(n - 1));
      }
    }
  }

  lemma Distribute(a: nat, b: nat, c: nat)
    ensures a * (b + c) == a * b + a * c
  {
  }

  /** What the trace promises: at most `maxRetries` attempts, a body exactly when
      some attempt answered 2xx (that attempt's body, the earlier ones all failed),
      one pause between consecutive attempts, growing geometrically. */
  lemma BackoffTraceMeaning(script: seq<Response>, maxRetries: nat, delay: nat)
    ensures var t := BackoffTrace(script, maxRetries, delay);
      && t.calls <= maxRetries
      && (t.body.Some? <==> exists j :: 0 <= j < maxRetries && Is2xx(At(script, j)))
      && (t.body.Some? ==> Is2xx(At(script, t.calls - 1)) && t.body.value == At(script, t.calls - 1).body)
      && (forall j :: 0 <= j < t.calls - 1 ==> !Is2xx(At(script, j)))
      && (t.calls > 0 ==> |t.sleeps| == t.calls - 1)
      && Sum(t.sleeps) + delay == delay * Pow2(|t.sleeps|)
  {
    var t := BackoffTrace(script, maxRetries, delay);
    BackoffTotal(delay, |t.sleeps|);
  }

  /** With the defaults (3 attempts, 2 seconds), two failures then a success pause
      2 and 4 seconds; a 404 is retried like any other failure. */
  lemma DefaultRetries(body: string)
    ensures BackoffTrace([RequestError, Response(404, ""), Response(200, body)], 3, 2)
            == Trace(Some(body), 3, [2, 4])
    ensures BackoffTrace([RequestError, Response(503, "")], 3, 2) == Trace(None, 3, [2, 4])
  {
    var s1 := [RequestError, Response(404, ""), Response(200, body)];
    assert !Is2xx(At(s1, 0)) && !Is2xx(At(s1, 1)) && Is2xx(At(s1, 2));
    assert Backoff(2, 2) == [2, 4];
    var s2 := [RequestError, Response(503, "")];
    assert !Is2xx(At(s2, 0)) && !Is2xx(At(s2, 1)) && !Is2xx(At(s2, 2));
  }

  // ---------------------------------------------------------------------------
  // The order list of one date

  /** A Python dict from order numbers to `Result` elements: the keys in insertion
      order, and the mapping. */
  datatype Dict = Dict(keys: seq<string>, values: map<string, Elem>)

  const EmptyDict := Dict([], map[])

  /** The keys are distinct and are exactly the mapping's domain. */
  ghost predicate WellFormed(d: Dict)
  {
    (forall i, j :: 0 <= i < j < |d.keys| ==> d.keys[i] != d.keys[j])
    && (forall k :: k in d.values <==> k in d.keys)
  }

  /** `d[k] = v` */
  function Put(d: Dict, k: string, v: Elem): Dict
  {
    if k in d.values then Dict(d.keys, d.values[k := v]) else Dict(d.keys + [k], d.values[k := v])
  }

  /** `d[k] = v` binds `k` to `v`, leaves every other key alone, keeps the order
      of the keys already present, appends a new key, and keeps the keys distinct. */
  lemma PutMeaning(d: Dict, k: string, v: Elem)
    ensures WellFormed(d) ==> WellFormed(Put(d, k, v))
    ensures k in Put(d, k, v).values && Put(d, k, v).values[k] == v
    ensures forall x :: x != k ==> (x in Put(d, k, v).values <==> x in d.values)
    ensures forall x :: x != k && x in d.values ==> Put(d, k, v).values[x] == d.values[x]
    ensures Put(d, k, v).keys == if k in d.values then d.keys else d.keys + [k]
  {
  }

  /** Storing the rows of a page one after the other; a result without a key is skipped. */
  function Absorb(d: Dict, rows: seq<Row>): Dict
  {
    if rows == [] then d
    else
      var before := Absorb(d, rows[..|rows| - 1]);
      var last := rows[|rows| - 1];
      match last.key
      case Some(k) => Put(before, k, last.result)
      case None => before
  }

  /** The position of the last row keyed `k`, or -1 when there is none. */
  function LastKeyed(rows: seq<Row>, k: string): (i: int)
    ensures -1 <= i < |rows|
  {
    if rows == [] then -1
    else if rows[|rows| - 1].key == Some(k) then |rows| - 1
    else LastKeyed(rows[..|rows| - 1], k)
  }

  /** `LastKeyed` finds a row with the key, and no later row has it. */
  lemma {:induction false} LastKeyedMeaning(rows: seq<Row>, k: string)
    ensures LastKeyed(rows, k) >= 0 ==> rows[LastKeyed(rows, k)].key == Some(k)
    ensures forall j :: LastKeyed(rows, k) < j < |rows| ==> rows[j].key != Some(k)
  {
    if rows != [] && rows[|rows| - 1].key != Some(k) {
      LastKeyedMeaning(rows[..|rows| - 1], k);
    }
  }

  /** Absorbing two runs of rows one after the other is absorbing their concatenation. */
  lemma {:induction false} AbsorbAppend(d: Dict, a: seq<Row>, b: seq<Row>)
    ensures Absorb(d, a + b) == Absorb(Absorb(d, a), b)
    decreases |b|
  {
    if b == [] {
      assert a + b == a;
    } else {
      assert (a + b)[..|a + b| - 1] == a + b[..|b| - 1];
      assert (a + b)[|a + b| - 1] == b[|b| - 1];
      AbsorbAppend(d, a, b[..|b| - 1]);
    }
  }

  /** What the stored orders are: a key is present exactly when it was present
      before or some row carries it, the last such row wins, untouched keys keep
      their value, earlier keys keep their positions, and keys stay distinct. */
  lemma {:induction false} AbsorbLastWins(d: Dict, rows: seq<Row>, k: string)
    requires WellFormed(d)
    ensures WellFormed(Absorb(d, rows))
    ensures d.keys <= Absorb(d, rows).keys
    ensures k in Absorb(d, rows).values <==> k in d.values || LastKeyed(rows, k) >= 0
    ensures LastKeyed(rows, k) >= 0 ==> Absorb(d, rows).values[k] == rows[LastKeyed(rows, k)].result
    ensures LastKeyed(rows, k) < 0 && k in d.values ==> Absorb(d, rows).values[k] == d.values[k]
  {
    if rows != [] {
      var before := rows[..|rows| - 1];
      var last := rows[|rows| - 1];
      AbsorbLastWins(d, before, k);
      if last.key.Some? {
        PutMeaning(Absorb(d, before), last.key.value, last.result);
      }
    }
  }

  /** The cursor for the request after a page, when there is one: the page had
      results, its last result has a key, and it was full. */
  function Cursor(rows: seq<Row>): Option<string>
  {
    if rows == [] then None
    else match rows[|rows| - 1].key
      case None => None
      case Some(k) => if |rows| < PageSize then None else Some(k)
  }

  /** The loop goes on after a page exactly when the page is full and its last
      result has a key, and then it sends that key. */
  lemma CursorMeaning(rows: seq<Row>)
    ensures Cursor(rows).Some? <==> |rows| >= PageSize && rows[|rows| - 1].key.Some?
    ensures Cursor(rows).Some? ==> Cursor(rows).value == rows[|rows| - 1].key.value
  {
  }

  /** The pagination loop from request `n` on, with the orders `d` stored so far
      and the cursor it is about to send: the orders it ends with and the cursors
      it sends. */
  function Paginate(pages: seq<seq<Row>>, n: nat, d: Dict, cursor: string): (Dict, seq<string>)
    decreases |pages| - n
  {
    var rows := RowsAt(pages, n);
    var stored := Absorb(d, rows);
    match Cursor(rows)
    case None => (stored, [cursor])
    case Some(next) =>
      var rest := Paginate(pages, n + 1, stored, next);
      (rest.0, [cursor] + rest.1)
  }

  /** The position of the first page from `from` on after which pagination stops. */
  function Stop(pages: seq<seq<Row>>, from: nat): (n: nat)
    requires from <= |pages|
    ensures from <= n <= |pages|
    decreases |pages| - from
  {
    if Cursor(RowsAt(pages, from)).None? then from else Stop(pages, from + 1)
  }

  /** Every page from `from` up to the stop continues, and the one at the stop does not. */
  lemma {:induction false} StopMeaning(pages: seq<seq<Row>>, from: nat)
    requires from <= |pages|
    ensures forall j :: from <= j < Stop(pages, from) ==> Cursor(RowsAt(pages, j)).Some?
    ensures Cursor(RowsAt(pages, Stop(pages, from))).None?
    decreases |pages| - from
  {
    if Cursor(RowsAt(pages, from)).Some? {
      StopMeaning(pages, from + 1);
    }
  }

  /** The rows of pages `from .. to-1`, in order. */
  function RowsBetween(pages: seq<seq<Row>>, from: nat, to: nat): seq<Row>
    decreases to - from
  {
    if from >= to then [] else RowsAt(pages, from) + RowsBetween(pages, from + 1, to)
  }

  /** The loop requests every page up to and including the first one that does
      not continue, and sends `cursor` first. */
  lemma {:induction false} PaginateRequests(pages: seq<seq<Row>>, from: nat, d: Dict, cursor: string)
    requires from <= |pages|
    ensures |Paginate(pages, from, d, cursor).1| == Stop(pages, from) - from + 1
    ensures Paginate(pages, from, d, cursor).1[0] == cursor
    decreases |pages| - from
  {
    var rows := RowsAt(pages, from);
    if Cursor(rows).Some? {
      PaginateRequests(pages, from + 1, Absorb(d, rows), Cursor(rows).value);
    }
  }

  /** Every request after the first sends the cursor of the page before it:
      request `j - from + 1` follows page `j`. */
  lemma {:induction false} PaginateCursors(pages: seq<seq<Row>>, from: nat, d: Dict, cursor: string)
    requires from <= |pages|
    ensures var cursors := Paginate(pages, from, d, cursor).1;
      forall j :: from <= j < from + |cursors| - 1 ==> Some(cursors[j - from + 1]) == Cursor(RowsAt(pages, j))
    decreases |pages| - from
  {
    var rows := RowsAt(pages, from);
    if Cursor(rows).Some? {
      PaginateCursors(pages, from + 1, Absorb(d, rows), Cursor(rows).value);
    }
  }

  /** The orders the loop ends with are the rows of exactly the requested pages,
      stored in order. */
  lemma PaginateOrders(pages: seq<seq<Row>>, from: nat, d: Dict, cursor: string)
    requires from <= |pages|
    ensures Paginate(pages, from, d, cursor).0 == Absorb(d, RowsBetween(pages, from, Stop(pages, from) + 1))
    decreases |pages| - from, 1
  {
    if Cursor(RowsAt(pages, from)).Some? {
      PaginateOrdersGoesOn(pages, from, d, cursor);
    } else {
      var rows := RowsAt(pages, from);
      assert RowsBetween(pages, from, from + 1) == rows by {
        assert RowsBetween(pages, from + 1, from + 1) == [];
        assert rows + [] == rows;
      }
    }
  }

  /** A page that continues hands its stored orders and its cursor to the next
      request, and the stop lies further on. */
  lemma PaginateStep(pages: seq<seq<Row>>, from: nat, d: Dict, cursor: string)
    requires from <= |pages| && Cursor(RowsAt(pages, from)).Some?
    ensures var rows := RowsAt(pages, from);
      && from < |pages|
      && Paginate(pages, from, d, cursor).0 == Paginate(pages, from + 1, Absorb(d, rows), Cursor(rows).value).0
      && Stop(pages, from) == Stop(pages, from + 1)
  {
  }

  lemma RowsBetweenStep(pages: seq<seq<Row>>, from: nat, to: nat)
    requires from < to
    ensures RowsBetween(pages, from, to) == RowsAt(pages, from) + RowsBetween(pages, from + 1, to)
  {
  }

  /** The step of `PaginateOrders` for a page after which the loop goes on. */
  lemma {:induction false} PaginateOrdersGoesOn(pages: seq<seq<Row>>, from: nat, d: Dict, cursor: string)
    requires from <= |pages| && Cursor(RowsAt(pages, from)).Some?
    ensures Paginate(pages, from, d, cursor).0 == Absorb(d, RowsBetween(pages, from, Stop(pages, from) + 1))
    decreases |pages| - from, 0
  {
    var rows := RowsAt(pages, from);
    var stored, next, stop := Absorb(d, rows), Cursor(rows).value, Stop(pages, from);
    var later := RowsBetween(pages, from + 1, stop + 1);
    calc {
      Paginate(pages, from, d, cursor).0;
    == { PaginateStep(pages, from, d, cursor); }
      Paginate(pages, from + 1, stored, next).0;
    == { PaginateStep(pages, from, d, cursor); PaginateOrders(pages, from + 1, stored, next); }
      Absorb(stored, later);
    == { AbsorbAppend(d, rows, later); }
      Absorb(d, rows + later);
    == { RowsBetweenStep(pages, from, stop + 1); }
      Absorb(d, RowsBetween(pages, from, stop + 1));
    }
  }

  /** The stored orders never hold two entries for one order number, and an order
      number is stored exactly when some row of a requested page carries it. */
  lemma FetchedOrdersMeaning(pages: seq<seq<Row>>, k: string)
    ensures var orders := Paginate(pages, 0, EmptyDict, "").0;
      var rows := RowsBetween(pages, 0, Stop(pages, 0) + 1);
      && WellFormed(orders)
      && (k in orders.values <==> exists i :: 0 <= i < |rows| && rows[i].key == Some(k))
      && (k in orders.values ==>
            exists i :: (0 <= i < |rows| && rows[i].key == Some(k) && orders.values[k] == rows[i].result
                         && forall j :: i < j < |rows| ==> rows[j].key != Some(k)))
  {
    var rows := RowsBetween(pages, 0, Stop(pages, 0) + 1);
    PaginateOrders(pages, 0, EmptyDict, "");
    AbsorbLastWins(EmptyDict, rows, k);
    LastKeyedMeaning(rows, k);
  }

  /** The parameters of the request for one page of a date's orders. */
  function PageParams(account: string, date: string, cursor: string): seq<(string, Param)>
  {
    [("account", Text(account)), ("condition", Text("1")), ("creating_source_type[]", Items(["99"])),
     ("order_date_fr", Text(date)), ("order_date_to", Text(date))]
    + (if cursor != "" then [("order_number", Text(cursor))] else [])
  }

  /** The page request filters on the one date, and carries `order_number` only
      with a non-empty cursor. */
  lemma PageQueryFields(account: string, date: string, cursor: string)
    ensures QueryFields(PageParams(account, date, cursor))
            == [Field("account", account), Field("condition", "1"), Field("creating_source_type[]", "99"),
                Field("order_date_fr", date), Field("order_date_to", date)]
               + (if cursor != "" then [Field("order_number", cursor)] else [])
  {
    var head := PageParams(account, date, "");
    var tail: seq<(string, Param)> := if cursor != "" then [("order_number", Text(cursor))] else [];
    assert PageParams(account, date, cursor) == head + tail;
    QueryFieldsAppend(head, tail);
    DateFilterFields(account, date);
    if cursor != "" {
      assert tail[..0] == [];
    }
  }

  lemma DateFilterFields(account: string, date: string)
    ensures QueryFields(PageParams(account, date, ""))
            == [Field("account", account), Field("condition", "1"), Field("creating_source_type[]", "99"),
                Field("order_date_fr", date), Field("order_date_to", date)]
  {
    var head := PageParams(account, date, "");
    assert FieldsOf("creating_source_type[]", Items(["99"])) == [Field("creating_source_type[]", "99")];
    assert QueryFields(head[..1]) == [Field("account", account)] by {
      assert head[..1][..0] == [];
    }
    assert QueryFields(head[..3]) == [Field("account", account), Field("condition", "1"),
                                      Field("creating_source_type[]", "99")] by {
      assert head[..3][..2] == head[..2] && head[..2][..1] == head[..1];
    }
    assert head[..5][..4] == head[..4] && head[..4][..3] == head[..3] && head[..5] == head;
  }

  /** The loop that stores a page's results: `all_orders_data[key] = res` for
      every result with a key. */
  method StoreResults(results: seq<Elem>, d: Dict) returns (orders: Dict)
    ensures orders == Absorb(d, Keyed(results, "order_number"))
  {
    ghost var rows := Keyed(results, "order_number");
    orders := d;
    var i := 0;
    while i < |results|
      invariant 0 <= i <= |results|
      invariant orders == Absorb(d, rows[..i])
    {
      assert rows[..i + 1][..i] == rows[..i];
      var key := KeyOf(results[i], "order_number");
      if key.Some? {
        orders := Put(orders, key.value, results[i]);
      }
      i := i + 1;
    }
    assert rows[..i] == rows;
  }

  /** One page of `async_fetch_base_orders_for_day`: a failed or unparsable
      reply, or one without results, stops; otherwise every result with a key is
      stored, and the loop goes on with the last result's key as cursor when that
      key exists and the page was full. */
  method FetchPage(page: Reply, d: Dict) returns (orders: Dict, next: Option<string>)
    ensures orders == Absorb(d, ReplyRows(page, "order_number"))
    ensures next == Cursor(ReplyRows(page, "order_number"))
  {
    if !page.Parsed? {
      return d, None;
    }
    var results := Results(page.root);
    if results == [] {
      return d, None;
    }
    orders := StoreResults(results, d);
    var lastKey := KeyOf(results[|results| - 1], "order_number");
    if lastKey.None? {
      return orders, None;
    }
    if |results| < PageSize {
      return orders, None;
    }
    next := lastKey;
  }

  /** Reads reply `n`, or no reply past the given ones, with `FetchPage`. */
  method FetchPageAt(pages: seq<Reply>, ghost rows: seq<seq<Row>>, n: nat, d: Dict)
    returns (orders: Dict, next: Option<string>)
    requires RowsOfReplies(pages, rows, "order_number")
    ensures orders == Absorb(d, RowsAt(rows, n))
    ensures next == Cursor(RowsAt(rows, n))
  {
    var page := if n < |pages| then pages[n] else NoReply;
    orders, next := FetchPage(page, d);
    assert ReplyRows(page, "order_number") == RowsAt(rows, n);
  }

  /** `async_fetch_base_orders_for_day`: `pages[i]` is the reply to the `i`-th
      request, which is sent with `PageParams(account, date, cursors[i])`, and
      `rows[i]` its keyed results. */
  method FetchBaseOrdersForDay(pages: seq<Reply>, ghost rows: seq<seq<Row>>)
    returns (orders: Dict, cursors: seq<string>)
    requires RowsOfReplies(pages, rows, "order_number")
    ensures (orders, cursors) == Paginate(rows, 0, EmptyDict, "")
  {
    ghost var run := Paginate(rows, 0, EmptyDict, "");
    orders := EmptyDict;
    cursors := [];
    var lastOrderNumber := "";
    var n := 0;
    while true
      invariant run.0 == Paginate(rows, n, orders, lastOrderNumber).0
      invariant run.1 == cursors + Paginate(rows, n, orders, lastOrderNumber).1
      decreases |pages| - n
    {
      var stored, next := FetchPageAt(pages, rows, n, orders);
      cursors := cursors + [lastOrderNumber];
      orders := stored;
      if next.None? {
        return;
      }
      lastOrderNumber := next.value;
      n := n + 1;
    }
  }
}

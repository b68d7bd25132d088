/**
 * The daily order export (get_order_detail_component_parallel.py): signed
 * requests with a constant retry pause, the list of yesterday's order numbers,
 * and the order tree built from the order-detail and order-component endpoints.
 *
 * Unlike the date-range script, this one parses replies without catching parse
 * errors, and gathers without `return_exceptions`: an unparsable reply anywhere
 * ends the whole run, which the model writes as `Crashed`.
 */
module DailyOrders {

  import opened Strings
  import opened Xml
  import opened Signing
  import opened Transport
  import opened ResultKeys

  // ---------------------------------------------------------------------------
  // Requests

  datatype Endpoint = OrderList | OrderDetail | OrderComponent

  function BaseUrl(e: Endpoint): string
  {
    match e
    case OrderList => "https://crossmall.jp/webapi2/get_order"
    case OrderDetail => "https://crossmall.jp/webapi2/get_order_detail"
    case OrderComponent => "https://crossmall.jp/webapi2/get_order_component"
  }

  /** `[f"{key}={value}" for key, value in params.items() if value]` */
  function QueryFields(params: seq<(string, Option<string>)>): seq<string>
  {
    if params == [] then []
    else
      var (key, value) := params[|params| - 1];
      QueryFields(params[..|params| - 1]) + (if Truthy(value) then [Field(key, value.value)] else [])
  }

  /** Each parameter contributes its field independently, in the dictionary's order. */
  lemma {:induction false} QueryFieldsAppend(a: seq<(string, Option<string>)>, b: seq<(string, Option<string>)>)
    ensures QueryFields(a + b) == QueryFields(a) + QueryFields(b)
    decreases |b|
  {
    if b == [] {
      assert a + b == a;
    } else {
      var b' := b[..|b| - 1];
      assert (a + b)[..|a + b| - 1] == a + b';
      assert (a + b)[|a + b| - 1] == b[|b| - 1];
      QueryFieldsAppend(a, b');
    }
  }

  /** A parameter set to None or to "" sends nothing; any other value sends
      exactly its `key=value` field, in its place. */
  lemma QueryFieldOfParam(a: seq<(string, Option<string>)>, key: string, value: Option<string>,
                          b: seq<(string, Option<string>)>)
    ensures QueryFields(a + [(key, value)] + b)
            == QueryFields(a) + (if Truthy(value) then [Field(key, value.value)] else []) + QueryFields(b)
  {
    QueryFieldsAppend(a + [(key, value)], b);
    QueryFieldsAppend(a, [(key, value)]);
    assert [(key, value)][..0] == [];
  }

  /** The request URL of `async_make_request`. */
  function RequestUrl(md5: string -> string, authKey: string, endpoint: Endpoint,
                      params: seq<(string, Option<string>)>): string
  {
    SignedUrl(md5, BaseUrl(endpoint), Join(QueryFields(params), '&'), authKey)
  }

  /** Identical requests have identical URLs, and when the digest has a fixed
      length a URL for an endpoint determines its query string. */
  lemma RequestUrlDeterminesQuery(md5: string -> string, authKey: string, endpoint: Endpoint,
                                  p1: seq<(string, Option<string>)>, p2: seq<(string, Option<string>)>)
    requires forall x :: |md5(x)| == 32
    requires RequestUrl(md5, authKey, endpoint, p1) == RequestUrl(md5, authKey, endpoint, p2)
    ensures Join(QueryFields(p1), '&') == Join(QueryFields(p2), '&')
  {
    SignedUrlDeterminesQuery(md5, BaseUrl(endpoint), Join(QueryFields(p1), '&'), Join(QueryFields(p2), '&'), authKey);
  }

  // ---------------------------------------------------------------------------
  // Retries

  /** `n` pauses of `delay` seconds. */
  function Pauses(delay: nat, n: nat): (s: seq<nat>)
    ensures |s| == n
  {
    seq(n, _ => delay)
  }

  /** `async_make_request`'s closed form: the first answer with status 200 wins;
      each failed attempt but the last is followed by the same pause. */
  function ConstantTrace(script: seq<Response>, maxRetries: nat, delay: nat): Trace
  {
    var k := FirstAccepted(script, maxRetries, Is200);
    if k < maxRetries then Trace(Some(At(script, k).body), k + 1, Pauses(delay, k))
    else Trace(None, maxRetries, Pauses(delay, if maxRetries == 0 then 0 else maxRetries - 1))
  }

  /** The retry loop of `async_make_request`: any status but 200 and any
      exception is retried, with a pause of `delay` between attempts. */
  method Retry(script: seq<Response>, maxRetries: nat, delay: nat) returns (t: Trace)
    ensures t == ConstantTrace(script, maxRetries, delay)
  {
    ghost var first := FirstAccepted(script, maxRetries, Is200);
    var attempts := 0;
    var sleeps: seq<nat> := [];
    while attempts < maxRetries
      invariant attempts == 0 || attempts < maxRetries
      invariant attempts <= first
      invariant sleeps == Pauses(delay, attempts)
    {
      var response := At(script, attempts);
      if Is200(response) {
        return Trace(Some(response.body), attempts + 1, sleeps);
      }
      attempts := attempts + 1;
      if attempts < maxRetries {
        sleeps := sleeps + [delay];
      } else {
        break;
      }
    }
    t := Trace(None, attempts, sleeps);
  }

  /** `async_make_request`: the signed URL and the retry loop. */
  method MakeRequest(md5: string -> string, authKey: string, endpoint: Endpoint,
                     params: seq<(string, Option<string>)>, script: seq<Response>, maxRetries: nat, delay: nat)
    returns (url: string, t: Trace)
    ensures url == RequestUrl(md5, authKey, endpoint, params)
    ensures t == ConstantTrace(script, maxRetries, delay)
  {
    var fields: seq<string> := [];
    var i := 0;
    while i < |params|
      invariant 0 <= i <= |params|
      invariant fields == QueryFields(params[..i])
    {
      assert params[..i + 1][..i] == params[..i];
      var (key, value) := params[i];
      if value.Some? && value.value != "" {
        fields := fields + [Field(key, value.value)];
      }
      i := i + 1;
    }
    assert params[..i] == params;
    url := SignedUrl(md5, BaseUrl(endpoint), Join(fields, '&'), authKey);
    t := Retry(script, maxRetries, delay);
  }

  /** The pauses add up to `delay` times their number. */
  lemma {:induction false} PausesTotal(delay: nat, n: nat)
    ensures Sum(Pauses(delay, n)) == delay * n
  {
    if n > 0 {
      PausesTotal(delay, n - 1);
      assert Pauses(delay, n)[..n - 1] == Pauses(delay, n - 1);
    }
  }

  /** At most `maxRetries` attempts; a body exactly when some attempt answered
      200 (the first such, whose body it is); one pause of `delay` between
      consecutive attempts and none after the last. */
  lemma ConstantTraceMeaning(script: seq<Response>, maxRetries: nat, delay: nat)
    ensures var t := ConstantTrace(script, maxRetries, delay);
      && t.calls <= maxRetries
      && (t.body.Some? <==> exists j :: 0 <= j < maxRetries && Is200(At(script, j)))
      && (t.body.Some? ==> Is200(At(script, t.calls - 1)) && t.body.value == At(script, t.calls - 1).body)
      && (forall j :: 0 <= j < t.calls - 1 ==> !Is200(At(script, j)))
      && (t.calls > 0 ==> |t.sleeps| == t.calls - 1)
      && (forall j :: 0 <= j < |t.sleeps| ==> t.sleeps[j] == delay)
      && Sum(t.sleeps) == delay * |t.sleeps|
  {
    PausesTotal(delay, |ConstantTrace(script, maxRetries, delay).sleeps|);
  }

  // ---------------------------------------------------------------------------
  // The order numbers

  /** A reply as the paging loop reads it: unparsable (which raises), or its
      keyed results (none for no reply). */
  datatype Page = Unparsable | Rows(rows: seq<Row>)

  function PageOf(reply: Reply): Page
  {
    match reply
    case NoReply => Rows([])
    case Garbled => Unparsable
    case Parsed(root) => Rows(Keyed(Results(root), "order_number"))
  }

  /** `pages` holds the page of each of the replies to successive requests. */
  predicate PagesOfReplies(replies: seq<Reply>, pages: seq<Page>)
  {
    |pages| == |replies| && forall i {:trigger PageOf(replies[i])} :: 0 <= i < |replies| ==> pages[i] == PageOf(replies[i])
  }

  /** Page `n`; a request past the given pages gets no reply. */
  function PageAt(pages: seq<Page>, n: nat): (p: Page)
    ensures n >= |pages| ==> p == Rows([])
  {
    if n < |pages| then pages[n] else Rows([])
  }

  /** The stripped order numbers of the rows that have one, in order. */
  function Numbers(rows: seq<Row>): seq<string>
  {
    if rows == [] then []
    else Numbers(rows[..|rows| - 1]) + (match rows[|rows| - 1].key case Some(k) => [k] case None => [])
  }

  /** The key of a page's last result. */
  function LastKey(rows: seq<Row>): Option<string>
  {
    if rows == [] then None else rows[|rows| - 1].key
  }

  /** The cursor after a page: the last result's key, or the old cursor when
      the last result has none. */
  function NextCursor(rows: seq<Row>, cursor: string): string
  {
    match LastKey(rows)
    case Some(k) => k
    case None => cursor
  }

  /** What the order-number loop ends with: a parse error, or the numbers it
      collected and the cursors it sent. */
  datatype Listing = Crashed | Listed(numbers: seq<string>, cursors: seq<string>)

  /** The order-number loop from request `n` on, about to send `cursor`. */
  function List(pages: seq<Page>, n: nat, cursor: string): Listing
    decreases |pages| - n
  {
    match PageAt(pages, n)
    case Unparsable => Crashed
    case Rows(rows) =>
      if |rows| < PageSize then Listed(Numbers(rows), [cursor])
      else match List(pages, n + 1, NextCursor(rows, cursor))
        case Crashed => Crashed
        case Listed(ns, cs) => Listed(Numbers(rows) + ns, [cursor] + cs)
  }

  /** A listing with the numbers and cursors of earlier pages in front. */
  function After(numbers: seq<string>, cursors: seq<string>, l: Listing): Listing
  {
    match l
    case Crashed => Crashed
    case Listed(ns, cs) => Listed(numbers + ns, cursors + cs)
  }

  /** The numbers of pages `from .. to-1`, in order. */
  function NumbersBetween(pages: seq<Page>, from: nat, to: nat): seq<string>
    decreases to - from
  {
    if from >= to then []
    else (match PageAt(pages, from) case Rows(rows) => Numbers(rows) case Unparsable => [])
         + NumbersBetween(pages, from + 1, to)
  }

  /** The numbers come page after page, duplicates kept: when the loop does not
      crash, it sends one cursor per page it reads, and its numbers are those of
      exactly these pages. */
  lemma {:induction false} ListNumbers(pages: seq<Page>, n: nat, cursor: string)
    ensures List(pages, n, cursor).Listed? ==>
      var l := List(pages, n, cursor);
      |l.cursors| >= 1 && l.cursors[0] == cursor
      && l.numbers == NumbersBetween(pages, n, n + |l.cursors|)
    decreases |pages| - n
  {
    var l := List(pages, n, cursor);
    if l.Listed? {
      var rows := PageAt(pages, n).rows;
      if |rows| < PageSize {
        assert NumbersBetween(pages, n, n + 1) == Numbers(rows) + NumbersBetween(pages, n + 1, n + 1);
      } else {
        var rest := List(pages, n + 1, NextCursor(rows, cursor));
        ListNumbers(pages, n + 1, NextCursor(rows, cursor));
        assert NumbersBetween(pages, n, n + |l.cursors|)
               == Numbers(rows) + NumbersBetween(pages, n + 1, n + 1 + |rest.cursors|);
      }
    }
  }

  /** After a full page the loop sends the next cursor: the key of the page's
      last result, or, when that result has no order number, the old cursor
      again. Every request but the last follows a full page. */
  lemma {:induction false} ListCursorAt(pages: seq<Page>, n: nat, cursor: string, i: nat)
    requires List(pages, n, cursor).Listed? && i + 1 < |List(pages, n, cursor).cursors|
    ensures PageAt(pages, n + i).Rows? && |PageAt(pages, n + i).rows| >= PageSize
    ensures List(pages, n, cursor).cursors[i + 1]
            == NextCursor(PageAt(pages, n + i).rows, List(pages, n, cursor).cursors[i])
    decreases i
  {
    var rows := PageAt(pages, n).rows;
    var next := NextCursor(rows, cursor);
    ListNumbers(pages, n + 1, next);
    if i > 0 {
      ListCursorAt(pages, n + 1, next, i - 1);
      assert n + 1 + (i - 1) == n + i;
    }
  }

  /** The loop over one page's results that appends each stripped order number. */
  method CollectNumbers(results: seq<Elem>) returns (numbers: seq<string>)
    ensures numbers == Numbers(Keyed(results, "order_number"))
  {
    ghost var rows := Keyed(results, "order_number");
    numbers := [];
    var i := 0;
    while i < |results|
      invariant 0 <= i <= |results|
      invariant numbers == Numbers(rows[..i])
    {
      assert rows[..i + 1][..i] == rows[..i];
      var key := KeyOf(results[i], "order_number");
      if key.Some? {
        numbers := numbers + [key.value];
      }
      i := i + 1;
    }
    assert rows[..i] == rows;
  }

  /** One page of `async_fetch_orders`: whether it raised, the numbers it
      adds, how many results it had, and its last result's key. */
  method ReadPage(reply: Reply) returns (crashed: bool, numbers: seq<string>, count: nat, lastKey: Option<string>)
    ensures crashed <==> PageOf(reply).Unparsable?
    ensures !crashed ==> numbers == Numbers(PageOf(reply).rows) && count == |PageOf(reply).rows|
                         && lastKey == LastKey(PageOf(reply).rows)
  {
    match reply {
      case NoReply =>
        return false, [], 0, None;
      case Garbled =>
        return true, [], 0, None;
      case Parsed(root) =>
        var results := Results(root);
        if results == [] {
          return false, [], 0, None;
        }
        numbers := CollectNumbers(results);
        crashed, count := false, |results|;
        lastKey := KeyOf(results[|results| - 1], "order_number");
    }
  }

  /** Reads reply `n`, or no reply past the given ones. */
  method ReadPageAt(replies: seq<Reply>, ghost pages: seq<Page>, n: nat)
    returns (crashed: bool, numbers: seq<string>, count: nat, lastKey: Option<string>)
    requires PagesOfReplies(replies, pages)
    ensures crashed <==> PageAt(pages, n).Unparsable?
    ensures !crashed ==> numbers == Numbers(PageAt(pages, n).rows) && count == |PageAt(pages, n).rows|
                         && lastKey == LastKey(PageAt(pages, n).rows)
  {
    var reply := if n < |replies| then replies[n] else NoReply;
    crashed, numbers, count, lastKey := ReadPage(reply);
    assert PageOf(reply) == PageAt(pages, n);
  }

  /** A full page moves its numbers and its cursor in front of the rest of
      the listing. */
  lemma AfterFullPage(numbers: seq<string>, cursors: seq<string>, pages: seq<Page>, n: nat, cursor: string)
    requires PageAt(pages, n).Rows? && |PageAt(pages, n).rows| >= PageSize
    ensures var rows := PageAt(pages, n).rows;
      After(numbers, cursors, List(pages, n, cursor))
        == After(numbers + Numbers(rows), cursors + [cursor], List(pages, n + 1, NextCursor(rows, cursor)))
  {
    var rows := PageAt(pages, n).rows;
    match List(pages, n + 1, NextCursor(rows, cursor))
    case Crashed =>
    case Listed(ns, cs) =>
      assert numbers + (Numbers(rows) + ns) == numbers + Numbers(rows) + ns;
      assert cursors + ([cursor] + cs) == cursors + [cursor] + cs;
  }

  /** A short page ends the listing. */
  lemma AfterShortPage(numbers: seq<string>, cursors: seq<string>, pages: seq<Page>, n: nat, cursor: string)
    requires PageAt(pages, n).Rows? && |PageAt(pages, n).rows| < PageSize
    ensures After(numbers, cursors, List(pages, n, cursor))
      == Listed(numbers + Numbers(PageAt(pages, n).rows), cursors + [cursor])
  {
  }

  /** `async_fetch_orders`: `replies[i]` answers the `i`-th request, which
      carries `order_number = cursors[i]` when that is non-empty, and `pages[i]`
      is what the loop reads from it. */
  method FetchOrders(replies: seq<Reply>, ghost pages: seq<Page>) returns (l: Listing)
    requires PagesOfReplies(replies, pages)
    ensures l == List(pages, 0, "")
  {
    ghost var run := List(pages, 0, "");
    var numbers: seq<string> := [];
    var cursors: seq<string> := [];
    var lastOrderNumber := "";
    var n := 0;
    while true
      invariant run == After(numbers, cursors, List(pages, n, lastOrderNumber))
      decreases |pages| - n
    {
      var crashed, found, count, lastKey := ReadPageAt(replies, pages, n);
      if crashed {
        return Crashed;
      }
      if count < PageSize {
        AfterShortPage(numbers, cursors, pages, n, lastOrderNumber);
        return Listed(numbers + found, cursors + [lastOrderNumber]);
      }
      AfterFullPage(numbers, cursors, pages, n, lastOrderNumber);
      numbers := numbers + found;
      cursors := cursors + [lastOrderNumber];
      if lastKey.Some? {
        lastOrderNumber := lastKey.value;
      }
      n := n + 1;
    }
  }

  // ---------------------------------------------------------------------------
  // The stale cursor, against a server that answers each cursor with one page

  /** How far the loop gets in `fuel + 1` requests against `serve`: finished
      with its numbers, or still going with the cursor of its next request. */
  datatype Progress = Finished(numbers: seq<string>) | Going(cursor: string)

  /** The loop as written: a full page whose last result has no key leaves the
      cursor as it was. */
  function Served(serve: string -> seq<Row>, cursor: string, fuel: nat): Progress
    decreases fuel
  {
    var rows := serve(cursor);
    if |rows| < PageSize then Finished(Numbers(rows))
    else if fuel == 0 then Going(NextCursor(rows, cursor))
    else match Served(serve, NextCursor(rows, cursor), fuel - 1)
      case Finished(ns) => Finished(Numbers(rows) + ns)
      case Going(c) => Going(c)
  }

  /** The loop as the date-range script corrects it: a last result without a
      key stops the loop. */
  function ServedStoppingOnMissingKey(serve: string -> seq<Row>, cursor: string, fuel: nat): Progress
    decreases fuel
  {
    var rows := serve(cursor);
    if |rows| < PageSize || LastKey(rows).None? then Finished(Numbers(rows))
    else if fuel == 0 then Going(LastKey(rows).value)
    else match ServedStoppingOnMissingKey(serve, LastKey(rows).value, fuel - 1)
      case Finished(ns) => Finished(Numbers(rows) + ns)
      case Going(c) => Going(c)
  }

  /** A server that makes progress on keys: whenever a full page ends with a
      key, that key ranks lower than the cursor that asked for the page. */
  ghost predicate Advancing(serve: string -> seq<Row>, rank: string -> nat)
  {
    forall c :: |serve(c)| >= PageSize && LastKey(serve(c)).Some? ==> rank(LastKey(serve(c)).value) < rank(c)
  }

  /** As written, a full page without a key at its end is asked for again and
      again: however many requests are allowed, the loop is still going, with
      the same cursor, even against an advancing server. */
  lemma {:induction false} ServedNeverFinishes(serve: string -> seq<Row>, cursor: string, fuel: nat)
    requires |serve(cursor)| >= PageSize && LastKey(serve(cursor)).None?
    ensures Served(serve, cursor, fuel) == Going(cursor)
  {
    if fuel > 0 {
      ServedNeverFinishes(serve, cursor, fuel - 1);
    }
  }

  /** A server that answers every request with 100 results none of which has
      an order number: it is advancing, yet the loop as written never ends. */
  lemma StaleCursorExample(fuel: nat)
    ensures var serve := (c: string) => seq(PageSize, _ => Row(None, Node("Result", [])));
      Advancing(serve, (c: string) => 0) && Served(serve, "", fuel) == Going("")
  {
    var serve := (c: string) => seq(PageSize, _ => Row(None, Node("Result", [])));
    assert LastKey(serve("")).None?;
    ServedNeverFinishes(serve, "", fuel);
  }

  /** With the stop on a missing key, an advancing server lets the loop finish
      within `rank(cursor) + 1` requests. */
  lemma {:induction false} StoppingFinishes(serve: string -> seq<Row>, rank: string -> nat, cursor: string)
    requires Advancing(serve, rank)
    ensures ServedStoppingOnMissingKey(serve, cursor, rank(cursor)).Finished?
    decreases rank(cursor)
  {
    var rows := serve(cursor);
    if |rows| >= PageSize && LastKey(rows).Some? {
      var next := LastKey(rows).value;
      StoppingFinishes(serve, rank, next);
      MoreFuelFinishes(serve, next, rank(next), rank(cursor) - 1);
    }
  }

  /** A run that finishes with some fuel finishes the same way with more. */
  lemma {:induction false} MoreFuelFinishes(serve: string -> seq<Row>, cursor: string, fuel: nat, more: nat)
    requires fuel <= more && ServedStoppingOnMissingKey(serve, cursor, fuel).Finished?
    ensures ServedStoppingOnMissingKey(serve, cursor, more) == ServedStoppingOnMissingKey(serve, cursor, fuel)
    decreases fuel
  {
    var rows := serve(cursor);
    if |rows| >= PageSize && LastKey(rows).Some? && fuel > 0 {
      MoreFuelFinishes(serve, LastKey(rows).value, fuel - 1, more - 1);
    }
  }

  // ---------------------------------------------------------------------------
  // One order

  /** `jan_elem is None or not (jan_elem.text and jan_elem.text.strip())`, then
      `line_no_elem is not None and line_no_elem.text`: the first `jan_cd` child
      is missing or blank and the first `line_no` child has text. */
  predicate NeedsComponents(r: Elem)
  {
    var jan := Find(r, "jan_cd");
    var line := Find(r, "line_no");
    (jan.None? || !HasNonBlankText(jan.value.text)) && line.Some? && HasText(line.value.text)
  }

  /** The `line_no` sent for a detail: the first `line_no` text, stripped (which
      may leave it empty). */
  function LineNo(r: Elem): string
    requires NeedsComponents(r)
  {
    Strip(Find(r, "line_no").value.text.value)
  }

  /** The component requests of a list of detail results, in order: the
      position of the detail and its `line_no`. */
  function Scheduled(rs: seq<Elem>): seq<(nat, string)>
  {
    if rs == [] then []
    else
      var last := rs[|rs| - 1];
      Scheduled(rs[..|rs| - 1]) + (if NeedsComponents(last) then [(|rs| - 1, LineNo(last))] else [])
  }

  /** Every request comes from a detail that needs components, with that
      detail's `line_no`, and the requests follow the order of the details. */
  lemma {:induction false} ScheduledSound(rs: seq<Elem>)
    ensures forall k :: 0 <= k < |Scheduled(rs)| ==>
              Scheduled(rs)[k].0 < |rs| && NeedsComponents(rs[Scheduled(rs)[k].0])
              && Scheduled(rs)[k].1 == LineNo(rs[Scheduled(rs)[k].0])
    ensures forall k, l :: 0 <= k < l < |Scheduled(rs)| ==> Scheduled(rs)[k].0 < Scheduled(rs)[l].0
  {
    if rs != [] {
      var init := rs[..|rs| - 1];
      ScheduledSound(init);
      var s := Scheduled(rs);
      assert forall k :: 0 <= k < |Scheduled(init)| ==> s[k] == Scheduled(init)[k];
      assert forall j :: 0 <= j < |init| ==> rs[j] == init[j];
    }
  }

  /** Every detail that needs components gets a request. */
  lemma {:induction false} ScheduledComplete(rs: seq<Elem>, j: nat)
    requires j < |rs| && NeedsComponents(rs[j])
    ensures exists k :: 0 <= k < |Scheduled(rs)| && Scheduled(rs)[k].0 == j
  {
    var init, last := rs[..|rs| - 1], rs[|rs| - 1];
    var s := Scheduled(rs);
    assert s == Scheduled(init) + (if NeedsComponents(last) then [(|rs| - 1, LineNo(last))] else []);
    if j < |init| {
      assert rs[j] == init[j];
      ScheduledComplete(init, j);
      var k :| 0 <= k < |Scheduled(init)| && Scheduled(init)[k].0 == j;
      assert s[k] == Scheduled(init)[k];
    } else {
      assert s[|s| - 1].0 == j;
    }
  }

  /** The filter on component results: the first `jan_cd` child has non-blank text. */
  predicate KeepComponent(c: Elem)
  {
    var jan := Find(c, "jan_cd");
    jan.Some? && HasNonBlankText(jan.value.text)
  }

  /** The `<Component>` nodes of the kept component results, in order. */
  function ComponentNodes(rs: seq<Elem>): (cs: seq<Elem>)
    ensures |cs| <= |rs|
  {
    if rs == [] then []
    else
      var last := rs[|rs| - 1];
      ComponentNodes(rs[..|rs| - 1]) + (if KeepComponent(last) then [Node("Component", last.children)] else [])
  }

  /** Every `<Component>` node copies a kept result, and every kept result has one. */
  lemma {:induction false} ComponentNodesMeaning(rs: seq<Elem>)
    ensures forall c :: c in ComponentNodes(rs) ==>
              c.tag == "Component" && exists r :: r in rs && KeepComponent(r) && c.children == r.children
    ensures forall r :: r in rs && KeepComponent(r) ==> Node("Component", r.children) in ComponentNodes(rs)
  {
    if rs != [] {
      var init, last := rs[..|rs| - 1], rs[|rs| - 1];
      ComponentNodesMeaning(init);
      assert rs == init + [last];
    }
  }

  /** A component reply: nothing to attach without a reply or without kept
      results, a crash when it does not parse, else the `<Components>` container. */
  function ComponentsOf(reply: Reply): Option<Option<Elem>>
  {
    match reply
    case NoReply => Some(None)
    case Garbled => None
    case Parsed(root) =>
      var cs := ComponentNodes(Results(root));
      Some(if cs == [] then None else Some(Node("Components", cs)))
  }

  /** A detail with an optional container appended. */
  function Attach(detail: Elem, container: Option<Elem>): Elem
  {
    if container.Some? then detail.(children := detail.children + [container.value]) else detail
  }

  /** The details after the zip loop: reply `k` attaches its container to detail
      `tasks[k].0`; None when some reply does not parse. */
  function ApplyAll(details: seq<Elem>, tasks: seq<(nat, string)>, replies: seq<Reply>): (r: Option<seq<Elem>>)
    requires |replies| == |tasks|
    ensures r.Some? ==> |r.value| == |details|
  {
    if tasks == [] then Some(details)
    else
      var n := |tasks| - 1;
      match ApplyAll(details, tasks[..n], replies[..n])
      case None => None
      case Some(ds) =>
        match ComponentsOf(replies[n])
        case None => None
        case Some(c) =>
          var t := tasks[n].0;
          Some(if t < |ds| then ds[t := Attach(ds[t], c)] else ds)
  }

  /** The zip loop crashes exactly when some reply does not parse. */
  lemma {:induction false} ApplyAllCrash(details: seq<Elem>, tasks: seq<(nat, string)>, replies: seq<Reply>)
    requires |replies| == |tasks|
    ensures ApplyAll(details, tasks, replies).None? <==> exists k :: 0 <= k < |tasks| && replies[k].Garbled?
  {
    if tasks != [] {
      var n := |tasks| - 1;
      ApplyAllCrash(details, tasks[..n], replies[..n]);
      assert forall k :: 0 <= k < n ==> replies[..n][k] == replies[k];
    }
  }

  /** Once a prefix of the replies crashes the zip loop, all of them do. */
  lemma {:induction false} ApplyAllPrefixCrash(details: seq<Elem>, tasks: seq<(nat, string)>, replies: seq<Reply>, n: nat)
    requires |replies| == |tasks| && n <= |tasks| && ApplyAll(details, tasks[..n], replies[..n]).None?
    ensures ApplyAll(details, tasks, replies).None?
  {
    ApplyAllCrash(details, tasks[..n], replies[..n]);
    var k :| 0 <= k < n && replies[..n][k].Garbled?;
    ApplyAllCrash(details, tasks, replies);
  }

  /** When the zip loop does not crash and no two requests target the same
      detail, each detail gets its own reply's container, and a detail without
      a request is left alone. */
  lemma {:induction false} ApplyAllAt(details: seq<Elem>, tasks: seq<(nat, string)>, replies: seq<Reply>, j: nat)
    requires |replies| == |tasks| && j < |details| && ApplyAll(details, tasks, replies).Some?
    requires forall k, l :: 0 <= k < l < |tasks| ==> tasks[k].0 != tasks[l].0
    ensures forall k :: 0 <= k < |tasks| && tasks[k].0 == j ==>
              ComponentsOf(replies[k]).Some?
              && ApplyAll(details, tasks, replies).value[j] == Attach(details[j], ComponentsOf(replies[k]).value)
    ensures (forall k :: 0 <= k < |tasks| ==> tasks[k].0 != j) ==> ApplyAll(details, tasks, replies).value[j] == details[j]
  {
    if tasks != [] {
      var n := |tasks| - 1;
      ApplyAllAt(details, tasks[..n], replies[..n], j);
      assert forall k :: 0 <= k < n ==> tasks[..n][k] == tasks[k] && replies[..n][k] == replies[k];
    }
  }

  /** The `<OrderDetail>` copy of each detail result. */
  function Plain(rs: seq<Elem>): (ds: seq<Elem>)
    ensures |ds| == |rs|
  {
    seq(|rs|, j requires 0 <= j < |rs| => Node("OrderDetail", rs[j].children))
  }

  /** The component replies, gathered in request order. */
  function Gather(orderNumber: string, tasks: seq<(nat, string)>, component: (string, string) -> Reply)
    : (rs: seq<Reply>)
    ensures |rs| == |tasks|
  {
    seq(|tasks|, k requires 0 <= k < |tasks| => component(orderNumber, tasks[k].1))
  }

  /** The `<Order>` `process_order` returns, or None when a reply does not parse. */
  function OrderTree(orderNumber: string, detail: Reply, component: (string, string) -> Reply): Option<Elem>
  {
    var bare := Elem("Order", None, [("order_number", orderNumber)], []);
    match detail
    case NoReply => Some(bare)
    case Garbled => None
    case Parsed(root) =>
      var rs := Results(root);
      var tasks := Scheduled(rs);
      match ApplyAll(Plain(rs), tasks, Gather(orderNumber, tasks, component))
      case None => None
      case Some(ds) => Some(bare.(children := ds))
  }

  /** A detail result whose component request gets a reply that does not parse. */
  predicate CrashingLine(orderNumber: string, r: Elem, component: (string, string) -> Reply)
  {
    NeedsComponents(r) && component(orderNumber, LineNo(r)).Garbled?
  }

  /** The `<OrderDetail>` a detail result ends as when its component reply parses. */
  function FinalDetail(orderNumber: string, r: Elem, component: (string, string) -> Reply): Elem
  {
    var e := Node("OrderDetail", r.children);
    if !NeedsComponents(r) then e
    else match ComponentsOf(component(orderNumber, LineNo(r)))
      case Some(c) => Attach(e, c)
      case None => e
  }

  /** A failed detail fetch gives an order with only its number, a detail reply
      that does not parse crashes, and otherwise the order carries its number
      and one child per detail result. */
  lemma OrderTreeMeaning(orderNumber: string, detail: Reply, component: (string, string) -> Reply)
    ensures detail.NoReply? ==> OrderTree(orderNumber, detail, component)
                                == Some(Elem("Order", None, [("order_number", orderNumber)], []))
    ensures detail.Garbled? ==> OrderTree(orderNumber, detail, component).None?
    ensures detail.Parsed? && OrderTree(orderNumber, detail, component).Some? ==>
      var o := OrderTree(orderNumber, detail, component).value;
      o.tag == "Order" && o.attrs == [("order_number", orderNumber)] && |o.children| == |Results(detail.root)|
  {
  }

  /** With a parsed detail reply, the order crashes exactly when the component
      reply of some detail that needs components does not parse. */
  lemma OrderTreeCrash(orderNumber: string, detail: Reply, component: (string, string) -> Reply)
    requires detail.Parsed?
    ensures OrderTree(orderNumber, detail, component).None? <==>
      exists j :: 0 <= j < |Results(detail.root)| && CrashingLine(orderNumber, Results(detail.root)[j], component)
  {
    var rs := Results(detail.root);
    var tasks := Scheduled(rs);
    var replies := Gather(orderNumber, tasks, component);
    assert OrderTree(orderNumber, detail, component).None? <==> ApplyAll(Plain(rs), tasks, replies).None?;
    ApplyAllCrash(Plain(rs), tasks, replies);
    if ApplyAll(Plain(rs), tasks, replies).None? {
      var k :| 0 <= k < |tasks| && replies[k].Garbled?;
      CrashOfRequest(orderNumber, rs, component, k);
    }
    if exists j :: 0 <= j < |rs| && CrashingLine(orderNumber, rs[j], component) {
      var j :| 0 <= j < |rs| && CrashingLine(orderNumber, rs[j], component);
      RequestOfCrash(orderNumber, rs, component, j);
    }
  }

  /** A component reply that does not parse answers a detail that needs components. */
  lemma CrashOfRequest(orderNumber: string, rs: seq<Elem>, component: (string, string) -> Reply, k: nat)
    requires k < |Scheduled(rs)| && Gather(orderNumber, Scheduled(rs), component)[k].Garbled?
    ensures Scheduled(rs)[k].0 < |rs| && CrashingLine(orderNumber, rs[Scheduled(rs)[k].0], component)
  {
    ScheduledSound(rs);
  }

  /** A detail whose component reply does not parse has a request among the gathered ones. */
  lemma RequestOfCrash(orderNumber: string, rs: seq<Elem>, component: (string, string) -> Reply, j: nat)
    requires j < |rs| && CrashingLine(orderNumber, rs[j], component)
    ensures exists k :: 0 <= k < |Scheduled(rs)| && Gather(orderNumber, Scheduled(rs), component)[k].Garbled?
  {
    var tasks := Scheduled(rs);
    ScheduledComplete(rs, j);
    var k :| 0 <= k < |tasks| && tasks[k].0 == j;
    ScheduledSound(rs);
    assert Gather(orderNumber, tasks, component)[k].Garbled?;
  }

  /** Child `j` of a completed order is the final form of detail result `j`:
      details keep the order of the results and sit directly under `<Order>`. */
  lemma OrderTreeDetailAt(orderNumber: string, detail: Reply, component: (string, string) -> Reply, j: nat)
    requires detail.Parsed? && OrderTree(orderNumber, detail, component).Some?
    requires j < |Results(detail.root)|
    ensures OrderTree(orderNumber, detail, component).value.children[j]
            == FinalDetail(orderNumber, Results(detail.root)[j], component)
  {
    var rs := Results(detail.root);
    var tasks := Scheduled(rs);
    var replies := Gather(orderNumber, tasks, component);
    ScheduledSound(rs);
    ApplyAllAt(Plain(rs), tasks, replies, j);
    if NeedsComponents(rs[j]) {
      ScheduledComplete(rs, j);
      var k :| 0 <= k < |tasks| && tasks[k].0 == j;
      assert replies[k] == component(orderNumber, LineNo(rs[j]));
      ApplyAllCrash(Plain(rs), tasks, replies);
    }
  }

  /** The loop over one component reply's results that fills `<Components>`. */
  method BuildComponents(reply: Reply) returns (container: Option<Option<Elem>>)
    ensures container == ComponentsOf(reply)
  {
    match reply {
      case NoReply =>
        return Some(None);
      case Garbled =>
        return None;
      case Parsed(root) =>
        var rs := Results(root);
        if rs == [] {
          return Some(None);
        }
        var nodes: seq<Elem> := [];
        var i := 0;
        while i < |rs|
          invariant 0 <= i <= |rs|
          invariant nodes == ComponentNodes(rs[..i])
        {
          assert rs[..i + 1][..i] == rs[..i];
          var jan := Find(rs[i], "jan_cd");
          if jan.Some? && HasText(jan.value.text) && Strip(jan.value.text.value) != "" {
            var node := CopyChildren("Component", rs[i].children);
            nodes := nodes + [node];
          }
          i := i + 1;
        }
        assert rs[..i] == rs;
        container := Some(if nodes == [] then None else Some(Node("Components", nodes)));
    }
  }

  /** The detail loop: a copied `<OrderDetail>` per detail result, and a
      component request for each that needs one. */
  method ScheduleDetails(rs: seq<Elem>) returns (details: seq<Elem>, tasks: seq<(nat, string)>)
    ensures details == Plain(rs) && tasks == Scheduled(rs)
  {
    details, tasks := [], [];
    var n := 0;
    while n < |rs|
      invariant 0 <= n <= |rs|
      invariant details == Plain(rs[..n]) && tasks == Scheduled(rs[..n])
    {
      assert rs[..n + 1][..n] == rs[..n];
      var e := CopyChildren("OrderDetail", rs[n].children);
      var jan := Find(rs[n], "jan_cd");
      if jan.None? || !(HasText(jan.value.text) && Strip(jan.value.text.value) != "") {
        var line := Find(rs[n], "line_no");
        if line.Some? && HasText(line.value.text) {
          tasks := tasks + [(n, Strip(line.value.text.value))];
        }
      }
      details := details + [e];
      n := n + 1;
    }
    assert rs[..n] == rs;
  }

  /** The zip loop over the requests and their replies. */
  method AttachComponents(details: seq<Elem>, tasks: seq<(nat, string)>, replies: seq<Reply>)
    returns (ds: Option<seq<Elem>>)
    requires |replies| == |tasks|
    ensures ds == ApplyAll(details, tasks, replies)
  {
    var current := details;
    var i := 0;
    while i < |tasks|
      invariant 0 <= i <= |tasks|
      invariant ApplyAll(details, tasks[..i], replies[..i]) == Some(current)
    {
      assert tasks[..i + 1][..i] == tasks[..i] && replies[..i + 1][..i] == replies[..i];
      assert tasks[..i + 1][i] == tasks[i] && replies[..i + 1][i] == replies[i];
      var container := BuildComponents(replies[i]);
      if container.None? {
        ApplyAllPrefixCrash(details, tasks, replies, i + 1);
        return None;
      }
      var t := tasks[i].0;
      if t < |current| && container.value.Some? {
        current := current[t := current[t].(children := current[t].children + [container.value.value])];
      } else if t < |current| {
        assert current[t := Attach(current[t], container.value)] == current;
      }
      i := i + 1;
    }
    assert tasks[..i] == tasks && replies[..i] == replies;
    ds := Some(current);
  }

  /** `process_order`. */
  method ProcessOrder(orderNumber: string, detail: Reply, component: (string, string) -> Reply)
    returns (order: Option<Elem>)
    ensures order == OrderTree(orderNumber, detail, component)
  {
    var bare := Elem("Order", None, [("order_number", orderNumber)], []);
    match detail {
      case NoReply =>
        return Some(bare);
      case Garbled =>
        return None;
      case Parsed(root) =>
        var details, tasks := ScheduleDetails(Results(root));
        var replies := Gather(orderNumber, tasks, component);
        var attached := AttachComponents(details, tasks, replies);
        if attached.None? {
          return None;
        }
        order := Some(bare.(children := attached.value));
    }
  }

  // ---------------------------------------------------------------------------
  // All orders

  /** The `<Order>` of each number in order, or None when any of them crashes. */
  function Orders(numbers: seq<string>, detail: string -> Reply, component: (string, string) -> Reply)
    : (r: Option<seq<Elem>>)
    ensures r.Some? ==> |r.value| == |numbers|
  {
    if numbers == [] then Some([])
    else
      var k := numbers[|numbers| - 1];
      match Orders(numbers[..|numbers| - 1], detail, component)
      case None => None
      case Some(os) =>
        match OrderTree(k, detail(k), component)
        case None => None
        case Some(o) => Some(os + [o])
  }

  /** One `<Order>` per input number, in input order, failed detail fetches
      included, and a crash exactly when some order crashes. */
  lemma {:induction false} OrdersMeaning(numbers: seq<string>, detail: string -> Reply, component: (string, string) -> Reply)
    ensures Orders(numbers, detail, component).None? <==>
              exists i :: 0 <= i < |numbers| && OrderTree(numbers[i], detail(numbers[i]), component).None?
    ensures Orders(numbers, detail, component).Some? ==>
      forall i :: 0 <= i < |numbers| ==>
        Some(Orders(numbers, detail, component).value[i]) == OrderTree(numbers[i], detail(numbers[i]), component)
  {
    if numbers != [] {
      var init := numbers[..|numbers| - 1];
      OrdersMeaning(init, detail, component);
      assert forall i :: 0 <= i < |init| ==> init[i] == numbers[i];
    }
  }

  /** `build_order_tree_parallel`: the gathered orders appended under `<Orders>`. */
  method BuildOrderTree(numbers: seq<string>, detail: string -> Reply, component: (string, string) -> Reply)
    returns (root: Option<Elem>)
    ensures root.None? <==> Orders(numbers, detail, component).None?
    ensures root.Some? ==> root.value == Node("Orders", Orders(numbers, detail, component).value)
  {
    var orders: seq<Elem> := [];
    var i := 0;
    while i < |numbers|
      invariant 0 <= i <= |numbers|
      invariant Orders(numbers[..i], detail, component) == Some(orders)
    {
      assert numbers[..i + 1][..i] == numbers[..i];
      var order := ProcessOrder(numbers[i], detail(numbers[i]), component);
      if order.None? {
        assert Orders(numbers[..i + 1], detail, component).None?;
        OrdersPrefixCrash(numbers, i + 1, detail, component);
        return None;
      }
      orders := orders + [order.value];
      i := i + 1;
    }
    assert numbers[..i] == numbers;
    root := Some(Node("Orders", orders));
  }

  /** Once a prefix of the numbers crashes, the whole run does. */
  lemma {:induction false} OrdersPrefixCrash(numbers: seq<string>, n: nat, detail: string -> Reply,
                                             component: (string, string) -> Reply)
    requires n <= |numbers| && Orders(numbers[..n], detail, component).None?
    ensures Orders(numbers, detail, component).None?
    decreases |numbers| - n
  {
    if n < |numbers| {
      assert numbers[..n + 1][..n] == numbers[..n];
      OrdersPrefixCrash(numbers, n + 1, detail, component);
    } else {
      assert numbers[..n] == numbers;
    }
  }
}

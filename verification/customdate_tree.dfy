/**
 * The order tree of the date-range script (customdate_get_order_detail_component_parallel.py):
 * `process_order`, which turns one base order, its detail reply and the
 * component replies of its details into an `<Order>` element, and
 * `build_complete_order_tree`, which collects the orders of one date.
 *
 * The detail and component requests are functions of their parameters: a
 * detail fetch answers a parsed root or nothing, a component fetch as
 * gathered with `return_exceptions=True` answers an exception, nothing or a
 * parsed root.
 */
module CustomdateTree {

  import opened Strings
  import opened Xml

  // ---------------------------------------------------------------------------
  // Which details get a component request

  /** A child that makes `has_jan_cd` true: a `jan_cd` with non-blank text. */
  predicate IsJanCode(c: Elem)
  {
    c.tag == "jan_cd" && HasNonBlankText(c.text)
  }

  /** `has_jan_cd` after the loop over a detail's children: set by any `jan_cd`
      child with non-blank text, never cleared. */
  function HasJanCode(cs: seq<Elem>): bool
  {
    if cs == [] then false else HasJanCode(cs[..|cs| - 1]) || IsJanCode(cs[|cs| - 1])
  }

  /** A child that sets `line_no`: a `line_no` with text. */
  predicate IsLineNo(c: Elem)
  {
    c.tag == "line_no" && HasText(c.text)
  }

  /** `line_no` after the loop: the stripped text of the last `line_no` child
      with text, None when there is none. */
  function LineNo(cs: seq<Elem>): Option<string>
  {
    if cs == [] then None
    else if IsLineNo(cs[|cs| - 1]) then Some(Strip(cs[|cs| - 1].text.value))
    else LineNo(cs[..|cs| - 1])
  }

  /** `not has_jan_cd and line_no`: the detail gets a component request. */
  predicate NeedsComponents(cs: seq<Elem>)
  {
    !HasJanCode(cs) && LineNo(cs).Some? && LineNo(cs).value != ""
  }

  /** `has_jan_cd` holds exactly when some child is a `jan_cd` with non-blank text. */
  lemma {:induction false} HasJanCodeMeaning(cs: seq<Elem>)
    ensures HasJanCode(cs) <==> exists i :: 0 <= i < |cs| && IsJanCode(cs[i])
  {
    if cs != [] {
      HasJanCodeMeaning(cs[..|cs| - 1]);
      if HasJanCode(cs[..|cs| - 1]) {
        var i :| 0 <= i < |cs| - 1 && IsJanCode(cs[..|cs| - 1][i]);
        assert IsJanCode(cs[i]);
      }
      if exists i :: 0 <= i < |cs| && IsJanCode(cs[i]) {
        var i :| 0 <= i < |cs| && IsJanCode(cs[i]);
        if i < |cs| - 1 {
          assert IsJanCode(cs[..|cs| - 1][i]);
        }
      }
    }
  }

  /** There is no `line_no` exactly when no child is a `line_no` with text. */
  lemma {:induction false} LineNoNone(cs: seq<Elem>)
    ensures LineNo(cs).None? <==> forall i :: 0 <= i < |cs| ==> !IsLineNo(cs[i])
  {
    if cs != [] && !IsLineNo(cs[|cs| - 1]) {
      var init := cs[..|cs| - 1];
      LineNoNone(init);
      assert forall i :: 0 <= i < |init| ==> cs[i] == init[i];
    }
  }

  /** A `line_no` is the stripped text of a `line_no` child with text after
      which no other one comes. */
  lemma {:induction false} LineNoLast(cs: seq<Elem>)
    requires LineNo(cs).Some?
    ensures exists i :: 0 <= i < |cs| && IsLineNo(cs[i]) && LineNo(cs).value == Strip(cs[i].text.value)
                        && forall j :: i < j < |cs| ==> !IsLineNo(cs[j])
  {
    var last := |cs| - 1;
    if IsLineNo(cs[last]) {
      assert IsLineNo(cs[last]) && LineNo(cs).value == Strip(cs[last].text.value);
    } else {
      var init := cs[..last];
      LineNoLast(init);
      var i :| 0 <= i < |init| && IsLineNo(init[i]) && LineNo(init).value == Strip(init[i].text.value)
               && forall j :: i < j < |init| ==> !IsLineNo(init[j]);
      assert cs[i] == init[i];
      forall j | i < j < |cs|
        ensures !IsLineNo(cs[j])
      {
        if j < last {
          assert cs[j] == init[j];
        }
      }
    }
  }

  /** `line_no` comes from the last `line_no` child with text: it is that text
      stripped, and there is none exactly when no child is a `line_no` with text. */
  lemma LineNoMeaning(cs: seq<Elem>)
    ensures LineNo(cs).None? <==> forall i :: 0 <= i < |cs| ==> !IsLineNo(cs[i])
    ensures LineNo(cs).Some? ==>
      (exists i :: 0 <= i < |cs| && IsLineNo(cs[i]) && LineNo(cs).value == Strip(cs[i].text.value)
                   && forall j :: i < j < |cs| ==> !IsLineNo(cs[j]))
  {
    LineNoNone(cs);
    if LineNo(cs).Some? {
      LineNoLast(cs);
    }
  }

  /** The loop over a detail's children that copies nothing but sets
      `has_jan_cd` and `line_no`. */
  method ScanDetail(cs: seq<Elem>) returns (hasJanCd: bool, lineNo: Option<string>)
    ensures hasJanCd == HasJanCode(cs) && lineNo == LineNo(cs)
  {
    hasJanCd, lineNo := false, None;
    var i := 0;
    while i < |cs|
      invariant 0 <= i <= |cs|
      invariant hasJanCd == HasJanCode(cs[..i]) && lineNo == LineNo(cs[..i])
    {
      assert cs[..i + 1][..i] == cs[..i];
      var child := cs[i];
      if child.tag == "jan_cd" && HasNonBlankText(child.text) {
        hasJanCd := true;
      }
      if child.tag == "line_no" && HasText(child.text) {
        lineNo := Some(Strip(child.text.value));
      }
      i := i + 1;
    }
    assert cs[..i] == cs;
  }

  // ---------------------------------------------------------------------------
  // Components

  /** The filter on component results: a non-blank `jan_cd`, or any child. */
  predicate KeepComponent(r: Elem)
  {
    var jan := FindIn(r.children, "jan_cd");
    (jan.Some? && HasNonBlankText(jan.value.text)) || |r.children| > 0
  }

  /** A result with a `jan_cd` child has a child, so the filter keeps exactly the
      results with at least one child. */
  lemma KeepComponentIffChildren(r: Elem)
    ensures KeepComponent(r) <==> |r.children| > 0
  {
    FindInMeaning(r.children, "jan_cd");
  }

  /** The `<Component>` nodes built from the kept component results, in order. */
  function ComponentNodes(rs: seq<Elem>): (cs: seq<Elem>)
    ensures |cs| <= |rs|
  {
    if rs == [] then []
    else
      var last := rs[|rs| - 1];
      ComponentNodes(rs[..|rs| - 1]) + (if KeepComponent(last) then [Node("Component", last.children)] else [])
  }

  /** Every `<Component>` node copies the children of a kept result, and keeps
      their order; a result is kept exactly when it has a child. */
  lemma {:induction false} ComponentNodesMeaning(rs: seq<Elem>)
    ensures forall c :: c in ComponentNodes(rs) ==>
              c.tag == "Component" && c.attrs == [] && |c.children| > 0
              && exists r :: r in rs && c.children == r.children
    ensures forall r :: r in rs && |r.children| > 0 ==> Node("Component", r.children) in ComponentNodes(rs)
  {
    if rs != [] {
      var init, last := rs[..|rs| - 1], rs[|rs| - 1];
      ComponentNodesMeaning(init);
      KeepComponentIffChildren(last);
      assert rs == init + [last];
    }
  }

  /** The `<Components>` container of a component reply: None when it holds no
      kept result. */
  function Components(root: Elem): Option<Elem>
  {
    var cs := ComponentNodes(Results(root));
    if cs == [] then None else Some(Node("Components", cs))
  }

  /** The loop over the component results that fills `<Components>`. */
  method BuildComponents(root: Elem) returns (container: Option<Elem>)
    ensures container == Components(root)
  {
    var rs := Results(root);
    if rs == [] {
      return None;
    }
    var nodes: seq<Elem> := [];
    var i := 0;
    while i < |rs|
      invariant 0 <= i <= |rs|
      invariant nodes == ComponentNodes(rs[..i])
    {
      assert rs[..i + 1][..i] == rs[..i];
      var r := rs[i];
      var jan := FindIn(r.children, "jan_cd");
      if (jan.Some? && HasNonBlankText(jan.value.text)) || |r.children| > 0 {
        var node := CopyChildren("Component", r.children);
        nodes := nodes + [node];
      }
      i := i + 1;
    }
    assert rs[..i] == rs;
    container := if nodes == [] then None else Some(Node("Components", nodes));
  }

  /** A detail after its component reply: an exception, no reply or a reply
      without kept results leaves it alone; otherwise `<Components>` is appended. */
  function Expand(detail: Elem, outcome: Outcome): Elem
  {
    if outcome.Raised? || outcome.root.None? then detail
    else match Components(outcome.root.value)
      case None => detail
      case Some(c) => detail.(children := detail.children + [c])
  }

  /** Expanding never touches the detail's own tag, text, attributes or children:
      it leaves the detail as it is after an exception or no reply, and it adds at
      most one child, a non-empty `<Components>` holding `<Component>` nodes. */
  lemma ExpandMeaning(detail: Elem, outcome: Outcome)
    ensures (outcome.Raised? || outcome == Returned(None)) ==> Expand(detail, outcome) == detail
    ensures var e := Expand(detail, outcome);
      && e.tag == detail.tag && e.text == detail.text && e.attrs == detail.attrs
      && (e == detail
          || (e.children[..|detail.children|] == detail.children
              && |e.children| == |detail.children| + 1
              && var c := e.children[|detail.children|];
              c.tag == "Components" && |c.children| > 0
              && forall x :: x in c.children ==> x.tag == "Component" && |x.children| > 0))
  {
    var e := Expand(detail, outcome);
    if e != detail {
      var c := Components(outcome.root.value);
      ComponentNodesMeaning(Results(outcome.root.value));
      assert e.children == detail.children + [c.value];
    }
  }

  // ---------------------------------------------------------------------------
  // One order

  /** The `<OrderDetail>` nodes as first built: a copy of each detail result's children. */
  function Plain(rs: seq<Elem>): (ds: seq<Elem>)
    ensures |ds| == |rs|
  {
    seq(|rs|, j requires 0 <= j < |rs| => Node("OrderDetail", rs[j].children))
  }

  /** The component requests a list of detail results schedules, in order: the
      position of the detail and its `line_no`. */
  function Scheduled(rs: seq<Elem>): seq<(nat, string)>
  {
    if rs == [] then []
    else
      var last := rs[|rs| - 1].children;
      Scheduled(rs[..|rs| - 1]) + (if NeedsComponents(last) then [(|rs| - 1, LineNo(last).value)] else [])
  }

  /** Every scheduled request comes from a detail that needs components, carries
      that detail's own `line_no`, and the requests follow the order of the details. */
  lemma {:induction false} ScheduledSound(rs: seq<Elem>)
    ensures forall k :: 0 <= k < |Scheduled(rs)| ==>
              Scheduled(rs)[k].0 < |rs| && NeedsComponents(rs[Scheduled(rs)[k].0].children)
              && Scheduled(rs)[k].1 == LineNo(rs[Scheduled(rs)[k].0].children).value
    ensures forall k, l :: 0 <= k < l < |Scheduled(rs)| ==> Scheduled(rs)[k].0 < Scheduled(rs)[l].0
  {
    if rs != [] {
      var init := rs[..|rs| - 1];
      ScheduledSound(init);
      var s := Scheduled(rs);
      assert forall k :: 0 <= k < |Scheduled(init)| ==> s[k] == Scheduled(init)[k];
      assert forall j :: 0 <= j < |init| ==> rs[j] == init[j];
    }
  }

  /** Every detail that needs components gets a request. */
  lemma {:induction false} ScheduledComplete(rs: seq<Elem>, j: nat)
    requires j < |rs| && NeedsComponents(rs[j].children)
    ensures exists k :: 0 <= k < |Scheduled(rs)| && Scheduled(rs)[k].0 == j
  {
    var init, last := rs[..|rs| - 1], rs[|rs| - 1].children;
    var s := Scheduled(rs);
    assert s == Scheduled(init) + (if NeedsComponents(last) then [(|rs| - 1, LineNo(last).value)] else []);
    if j < |init| {
      assert rs[j] == init[j];
      ScheduledComplete(init, j);
      var k :| 0 <= k < |Scheduled(init)| && Scheduled(init)[k].0 == j;
      assert s[k] == Scheduled(init)[k];
    } else {
      assert s[|s| - 1].0 == j;
    }
  }

  /** `asyncio.gather` over the scheduled component requests: one outcome per
      request, in request order. */
  function Gather(orderNumber: string, tasks: seq<(nat, string)>, component: (string, string) -> Outcome)
    : (os: seq<Outcome>)
    ensures |os| == |tasks|
  {
    seq(|tasks|, k requires 0 <= k < |tasks| => component(orderNumber, tasks[k].1))
  }

  /** The details after the loop over the gathered outcomes: outcome `k` expands
      the detail at position `tasks[k].0`. */
  function ApplyAll(details: seq<Elem>, tasks: seq<(nat, string)>, outcomes: seq<Outcome>): (ds: seq<Elem>)
    requires |outcomes| == |tasks|
    ensures |ds| == |details|
  {
    if tasks == [] then details
    else
      var n := |tasks| - 1;
      var ds := ApplyAll(details, tasks[..n], outcomes[..n]);
      var t := tasks[n].0;
      if t < |ds| then ds[t := Expand(ds[t], outcomes[n])] else ds
  }

  /** When no two requests target the same detail, each detail is expanded by
      its own outcome, and a detail no request targets is left alone. */
  lemma {:induction false} ApplyAllAt(details: seq<Elem>, tasks: seq<(nat, string)>, outcomes: seq<Outcome>, j: nat)
    requires |outcomes| == |tasks| && j < |details|
    requires forall k, l :: 0 <= k < l < |tasks| ==> tasks[k].0 != tasks[l].0
    ensures forall k :: 0 <= k < |tasks| && tasks[k].0 == j ==>
              ApplyAll(details, tasks, outcomes)[j] == Expand(details[j], outcomes[k])
    ensures (forall k :: 0 <= k < |tasks| ==> tasks[k].0 != j) ==> ApplyAll(details, tasks, outcomes)[j] == details[j]
  {
    if tasks != [] {
      var n := |tasks| - 1;
      ApplyAllAt(details, tasks[..n], outcomes[..n], j);
      assert forall k :: 0 <= k < n ==> tasks[..n][k] == tasks[k] && outcomes[..n][k] == outcomes[k];
    }
  }

  /** The `<OrderDetail>` a detail result ends as: a copy of its children, with
      `<Components>` from its own component reply when it needs one. */
  function FinalDetail(orderNumber: string, r: Elem, component: (string, string) -> Outcome): Elem
  {
    var e := Node("OrderDetail", r.children);
    if NeedsComponents(r.children) then Expand(e, component(orderNumber, LineNo(r.children).value)) else e
  }

  /** The details under `<OrderDetails>` for a detail reply (none without one). */
  function DetailsOf(orderNumber: string, detail: Option<Elem>, component: (string, string) -> Outcome)
    : seq<Elem>
  {
    if detail.None? then []
    else
      var rs := Results(detail.value);
      var tasks := Scheduled(rs);
      ApplyAll(Plain(rs), tasks, Gather(orderNumber, tasks, component))
  }

  /** One `<OrderDetail>` per detail result, in result order, each the final
      form of its own result. */
  lemma DetailsOfMeaning(orderNumber: string, root: Elem, component: (string, string) -> Outcome)
    ensures var rs := Results(root);
      var ds := DetailsOf(orderNumber, Some(root), component);
      && |ds| == |rs|
      && forall j :: 0 <= j < |rs| ==> ds[j] == FinalDetail(orderNumber, rs[j], component)
  {
    var rs := Results(root);
    var tasks := Scheduled(rs);
    var outcomes := Gather(orderNumber, tasks, component);
    ScheduledSound(rs);
    forall j | 0 <= j < |rs|
      ensures DetailsOf(orderNumber, Some(root), component)[j] == FinalDetail(orderNumber, rs[j], component)
    {
      ApplyAllAt(Plain(rs), tasks, outcomes, j);
      if NeedsComponents(rs[j].children) {
        ScheduledComplete(rs, j);
        var k :| 0 <= k < |tasks| && tasks[k].0 == j;
        assert outcomes[k] == component(orderNumber, LineNo(rs[j].children).value);
      }
    }
  }

  /** The `<Order>` element `process_order` returns. */
  function OrderTree(orderNumber: string, base: Elem, detail: Option<Elem>, component: (string, string) -> Outcome)
    : Elem
  {
    var details := DetailsOf(orderNumber, detail, component);
    Elem("Order", None, [("order_number", orderNumber)],
         [Node("OrderHeader", base.children)] + (if details == [] then [] else [Node("OrderDetails", details)]))
  }

  /** Every order carries its number and a header copying all base fields in
      order; `<OrderDetails>` follows exactly when the detail reply has results,
      with one detail per result. */
  lemma OrderTreeMeaning(orderNumber: string, base: Elem, detail: Option<Elem>, component: (string, string) -> Outcome)
    ensures var o := OrderTree(orderNumber, base, detail, component);
      && o.tag == "Order" && o.attrs == [("order_number", orderNumber)]
      && 1 <= |o.children| <= 2
      && o.children[0] == Node("OrderHeader", base.children)
      && (|o.children| == 2 <==> detail.Some? && Results(detail.value) != [])
      && (|o.children| == 2 ==> (o.children[1].tag == "OrderDetails"
                                 && |o.children[1].children| == |Results(detail.value)|))
  {
    if detail.Some? {
      DetailsOfMeaning(orderNumber, detail.value, component);
    }
  }

  /** `process_order`: the header, the detail loop that schedules component
      requests, the gathered component replies, and the assembly. */
  method ProcessOrder(orderNumber: string, base: Elem, detail: Option<Elem>, component: (string, string) -> Outcome)
    returns (order: Elem)
    ensures order == OrderTree(orderNumber, base, detail, component)
  {
    var header := CopyChildren("OrderHeader", base.children);
    var details, tasks := ScheduleDetails(detail);
    if tasks != [] {
      var outcomes := Gather(orderNumber, tasks, component);
      details := AttachComponents(details, tasks, outcomes);
    }
    var children := [header];
    if details != [] {
      children := children + [Node("OrderDetails", details)];
    }
    order := Elem("Order", None, [("order_number", orderNumber)], children);
  }

  /** The detail loop: a copied `<OrderDetail>` per detail result, and a
      component request for each that needs one. */
  method ScheduleDetails(detail: Option<Elem>) returns (details: seq<Elem>, tasks: seq<(nat, string)>)
    ensures detail.None? ==> details == [] && tasks == []
    ensures detail.Some? ==> details == Plain(Results(detail.value)) && tasks == Scheduled(Results(detail.value))
  {
    details, tasks := [], [];
    if detail.None? {
      return;
    }
    var rs := Results(detail.value);
    var n := 0;
    while n < |rs|
      invariant 0 <= n <= |rs|
      invariant details == Plain(rs[..n]) && tasks == Scheduled(rs[..n])
    {
      assert rs[..n + 1][..n] == rs[..n];
      var e := CopyChildren("OrderDetail", rs[n].children);
      var hasJanCd, lineNo := ScanDetail(rs[n].children);
      if !hasJanCd && lineNo.Some? && lineNo.value != "" {
        tasks := tasks + [(n, lineNo.value)];
      }
      details := details + [e];
      n := n + 1;
    }
    assert rs[..n] == rs;
  }

  /** The loop over the gathered outcomes, appending `<Components>` to the detail
      each request came from. */
  method AttachComponents(details: seq<Elem>, tasks: seq<(nat, string)>, outcomes: seq<Outcome>)
    returns (ds: seq<Elem>)
    requires |outcomes| == |tasks|
    ensures ds == ApplyAll(details, tasks, outcomes)
  {
    ds := details;
    var i := 0;
    while i < |tasks|
      invariant 0 <= i <= |tasks|
      invariant ds == ApplyAll(details, tasks[..i], outcomes[..i])
    {
      assert tasks[..i + 1][..i] == tasks[..i] && outcomes[..i + 1][..i] == outcomes[..i];
      var t := tasks[i].0;
      var outcome := outcomes[i];
      if t < |ds| && outcome.Returned? && outcome.root.Some? {
        var container := BuildComponents(outcome.root.value);
        if container.Some? {
          ds := ds[t := ds[t].(children := ds[t].children + [container.value])];
        }
      }
      i := i + 1;
    }
    assert tasks[..i] == tasks && outcomes[..i] == outcomes;
  }

  // ---------------------------------------------------------------------------
  // One date

  /** The `<Order>` elements of the orders whose processing did not raise, in
      the order of the keys. */
  function Assembled(keys: seq<string>, bases: map<string, Elem>, crashed: string -> bool,
                     detail: string -> Option<Elem>, component: (string, string) -> Outcome): seq<Elem>
    requires forall i :: 0 <= i < |keys| ==> keys[i] in bases
  {
    if keys == [] then []
    else
      var k := keys[|keys| - 1];
      Assembled(keys[..|keys| - 1], bases, crashed, detail, component)
      + (if crashed(k) then [] else [OrderTree(k, bases[k], detail(k), component)])
  }

  /** How many of the keys' orders raised. */
  function Crashes(keys: seq<string>, crashed: string -> bool): nat
  {
    if keys == [] then 0 else Crashes(keys[..|keys| - 1], crashed) + (if crashed(keys[|keys| - 1]) then 1 else 0)
  }

  /** The keys whose orders did not raise, in order. */
  function Survivors(keys: seq<string>, crashed: string -> bool): (s: seq<string>)
    ensures |s| <= |keys|
  {
    if keys == [] then []
    else Survivors(keys[..|keys| - 1], crashed) + (if crashed(keys[|keys| - 1]) then [] else [keys[|keys| - 1]])
  }

  /** The `<Orders>` children are the orders of the surviving keys, one each,
      in key order, and together with the failed ones they account for every key. */
  lemma {:induction false} AssembledMeaning(keys: seq<string>, bases: map<string, Elem>, crashed: string -> bool,
                                            detail: string -> Option<Elem>, component: (string, string) -> Outcome)
    requires forall i :: 0 <= i < |keys| ==> keys[i] in bases
    ensures var a := Assembled(keys, bases, crashed, detail, component);
      var s := Survivors(keys, crashed);
      && |a| == |s|
      && |a| + Crashes(keys, crashed) == |keys|
      && forall i :: 0 <= i < |a| ==> s[i] in bases && !crashed(s[i]) && a[i] == OrderTree(s[i], bases[s[i]], detail(s[i]), component)
  {
    if keys != [] {
      var init := keys[..|keys| - 1];
      AssembledMeaning(init, bases, crashed, detail, component);
      assert forall i :: 0 <= i < |init| ==> init[i] in bases by {
        assert forall i :: 0 <= i < |init| ==> init[i] == keys[i];
      }
    }
  }

  /** `build_complete_order_tree`: the orders in `orders_data` order under
      `<Orders>`, the number appended, and the number that raised. */
  method BuildCompleteOrderTree(keys: seq<string>, bases: map<string, Elem>, crashed: string -> bool,
                                detail: string -> Option<Elem>, component: (string, string) -> Outcome)
    returns (root: Elem, processed: nat, failed: nat)
    requires forall i :: 0 <= i < |keys| ==> keys[i] in bases
    ensures root == Node("Orders", Assembled(keys, bases, crashed, detail, component))
    ensures processed == |root.children| && failed == Crashes(keys, crashed)
  {
    var orders: seq<Elem> := [];
    processed, failed := 0, 0;
    var i := 0;
    while i < |keys|
      invariant 0 <= i <= |keys|
      invariant orders == Assembled(keys[..i], bases, crashed, detail, component)
      invariant processed == |orders| && failed == Crashes(keys[..i], crashed)
    {
      assert keys[..i + 1][..i] == keys[..i];
      var k := keys[i];
      if crashed(k) {
        failed := failed + 1;
      } else {
        var order := ProcessOrder(k, bases[k], detail(k), component);
        orders := orders + [order];
        processed := processed + 1;
      }
      i := i + 1;
    }
    assert keys[..i] == keys;
    root := Node("Orders", orders);
  }
}

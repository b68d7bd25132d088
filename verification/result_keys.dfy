/**
 * How the fetch scripts read a `Result` element's key (`order_number`,
 * `item_code`): the first child with that tag, when it has text, stripped.
 * The paging loops only look at each result through its key, so a page is
 * handed to them as rows: each result together with its key.
 */
module ResultKeys {

  import opened Strings
  import opened Xml

  /** `el = res.find(tag)`, then `el.text.strip()` when `el is not None and el.text`. */
  function KeyOf(res: Elem, tag: string): Option<string>
  {
    match Find(res, tag)
    case Some(el) => if HasText(el.text) then Some(Strip(el.text.value)) else None
    case None => None
  }

  /** A key exists exactly when the first child with the tag has non-empty text;
      it is that text stripped, so it has no white space at either end. A key
      can be empty: a text of white space only strips to "". */
  lemma KeyOfMeaning(res: Elem, tag: string)
    ensures KeyOf(res, tag).Some? <==> Find(res, tag).Some? && HasText(Find(res, tag).value.text)
    ensures KeyOf(res, tag).Some? ==> KeyOf(res, tag).value == Strip(Find(res, tag).value.text.value)
    ensures KeyOf(res, tag).Some? ==> Strip(KeyOf(res, tag).value) == KeyOf(res, tag).value
  {
    if KeyOf(res, tag).Some? {
      StripIdempotent(Find(res, tag).value.text.value);
    }
  }

  /** A result with the key it is stored or paged under. */
  datatype Row = Row(key: Option<string>, result: Elem)

  /** The rows of a list of results, in order. */
  function Keyed(rs: seq<Elem>, tag: string): seq<Row>
  {
    seq(|rs|, i requires 0 <= i < |rs| => Row(KeyOf(rs[i], tag), rs[i]))
  }

  /** The rows of a reply: the keyed `.//Result`s of a parsed page, none otherwise. */
  function ReplyRows(p: Reply, tag: string): seq<Row>
  {
    if p.Parsed? then Keyed(Results(p.root), tag) else []
  }

  /** `rows` holds the rows of each of the replies to successive page requests. */
  predicate RowsOfReplies(pages: seq<Reply>, rows: seq<seq<Row>>, tag: string)
  {
    |rows| == |pages|
    && forall i {:trigger ReplyRows(pages[i], tag)} :: 0 <= i < |pages| ==> rows[i] == ReplyRows(pages[i], tag)
  }

  /** The number of results that makes a page full: a shorter page is the last. */
  const PageSize := 100

  /** The rows of page `n`; a request past the given pages gets none. */
  function RowsAt(pages: seq<seq<Row>>, n: nat): (rows: seq<Row>)
    ensures n >= |pages| ==> rows == []
  {
    if n < |pages| then pages[n] else []
  }
}

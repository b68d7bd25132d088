/**
 * The part of Python's xml.etree.ElementTree and str that the scripts rely on:
 * elements as values, `find`, `findtext`, `findall("tag")`, `findall(".//tag")`,
 * and the truthiness of `elem.text`.
 */
module Xml {

  import opened Strings

  datatype Option<+T> = None | Some(value: T)

  /** Python truthiness of an optional string (a parameter value, an
      environment variable): present and non-empty. */
  predicate Truthy(v: Option<string>)
  {
    v.Some? && v.value != ""
  }

  /** An element: tag, text (None when the element has no text), attributes in
      insertion order, and children in document order. */
  datatype Elem = Elem(tag: string, text: Option<string>, attrs: seq<(string, string)>, children: seq<Elem>)

  /** What a fetch helper hands back: nothing (None or an empty body), a body
      that does not parse, or the parsed document root. */
  datatype Reply = NoReply | Garbled | Parsed(root: Elem)

  /** What one awaitable gathered with `return_exceptions=True` yields: the
      exception it raised, or the value it returned (a parsed root or None). */
  datatype Outcome = Raised | Returned(root: Option<Elem>)

  /** A new element with a tag and children only, as `ET.Element(tag)` followed by appends. */
  function Node(tag: string, children: seq<Elem>): (e: Elem)
    ensures e.tag == tag && e.children == children && e.text == None && e.attrs == []
  {
    Elem(tag, None, [], children)
  }

  /** A new element with the given tag and copies of `cs` appended one by one. */
  method CopyChildren(tag: string, cs: seq<Elem>) returns (e: Elem)
    ensures e == Node(tag, cs)
  {
    e := Node(tag, []);
    var i := 0;
    while i < |cs|
      invariant 0 <= i <= |cs|
      invariant e == Node(tag, cs[..i])
    {
      e := e.(children := e.children + [cs[i]]);
      i := i + 1;
    }
    assert cs[..i] == cs;
  }

  /** Python truthiness of `elem.text`: present and non-empty. */
  predicate HasText(t: Option<string>)
  {
    t.Some? && t.value != ""
  }

  /** `elem.text and elem.text.strip()`: present and not all white space. */
  predicate HasNonBlankText(t: Option<string>)
  {
    t.Some? && Strip(t.value) != ""
  }

  lemma NonBlankHasText(t: Option<string>)
    ensures HasNonBlankText(t) ==> HasText(t)
  {
    if t.Some? && t.value == "" {
      assert Strip(t.value) == "";
    }
  }

  // ---------------------------------------------------------------------------
  // find / findtext / findall

  /** The position of the first child with that tag, or the length when there is none. */
  function FirstTagged(cs: seq<Elem>, tag: string): (i: nat)
    ensures i <= |cs|
  {
    if cs == [] || cs[0].tag == tag then 0 else 1 + FirstTagged(cs[1..], tag)
  }

  /** No child before the position has the tag, and the child at it has. */
  lemma {:induction false} FirstTaggedMeaning(cs: seq<Elem>, tag: string)
    ensures forall j :: 0 <= j < FirstTagged(cs, tag) ==> cs[j].tag != tag
    ensures FirstTagged(cs, tag) < |cs| ==> cs[FirstTagged(cs, tag)].tag == tag
  {
    if cs != [] && cs[0].tag != tag {
      FirstTaggedMeaning(cs[1..], tag);
    }
  }

  /** `elem.find(tag)` over a list of children. */
  function FindIn(cs: seq<Elem>, tag: string): Option<Elem>
  {
    var i := FirstTagged(cs, tag);
    if i < |cs| then Some(cs[i]) else None
  }

  /** `find` answers nothing exactly when no child has the tag, and otherwise
      the first child that has it. */
  lemma FindInMeaning(cs: seq<Elem>, tag: string)
    ensures FindIn(cs, tag).None? <==> forall i :: 0 <= i < |cs| ==> cs[i].tag != tag
    ensures FindIn(cs, tag).Some? ==>
      (exists i :: 0 <= i < |cs| && FindIn(cs, tag).value == cs[i] && cs[i].tag == tag
                   && forall j :: 0 <= j < i ==> cs[j].tag != tag)
  {
    FirstTaggedMeaning(cs, tag);
  }

  function Find(e: Elem, tag: string): Option<Elem>
  {
    FindIn(e.children, tag)
  }

  /** `elem.findtext(tag)`: None without such a child, else its text, "" when it has none. */
  function FindText(e: Elem, tag: string): (r: Option<string>)
    ensures r.None? <==> Find(e, tag).None?
    ensures r.Some? && r.value != "" ==> HasText(Find(e, tag).value.text)
  {
    match Find(e, tag)
    case None => None
    case Some(c) => Some(if c.text.Some? then c.text.value else "")
  }

  /** `elem.findall(tag)`: the children with that tag, in document order. */
  function ChildrenTagged(cs: seq<Elem>, tag: string): (r: seq<Elem>)
    ensures |r| <= |cs|
  {
    if cs == [] then []
    else (if cs[0].tag == tag then [cs[0]] else []) + ChildrenTagged(cs[1..], tag)
  }

  /** `findall` keeps exactly the children with the tag. */
  lemma {:induction false} ChildrenTaggedMeaning(cs: seq<Elem>, tag: string)
    ensures forall x :: x in ChildrenTagged(cs, tag) <==> x in cs && x.tag == tag
  {
    if cs != [] {
      ChildrenTaggedMeaning(cs[1..], tag);
      assert cs == [cs[0]] + cs[1..];
    }
  }

  /** `elem.findall(".//" + tag)` over a list of subtrees: every element with that
      tag in the subtrees, in document (pre-)order. */
  function DescendantsIn(cs: seq<Elem>, tag: string): seq<Elem>
    decreases cs
  {
    if cs == [] then []
    else (if cs[0].tag == tag then [cs[0]] else []) + DescendantsIn(cs[0].children, tag) + DescendantsIn(cs[1..], tag)
  }

  /** Every element `.//tag` finds has the tag. */
  lemma {:induction false} DescendantsTagged(cs: seq<Elem>, tag: string)
    ensures forall x :: x in DescendantsIn(cs, tag) ==> x.tag == tag
    decreases cs
  {
    if cs != [] {
      DescendantsTagged(cs[0].children, tag);
      DescendantsTagged(cs[1..], tag);
    }
  }

  /** `root.findall(".//Result")`: the root itself is not a candidate. */
  function Results(root: Elem): seq<Elem>
  {
    DescendantsIn(root.children, "Result")
  }

  /** The subtrees' own `Result`s come first, in order, when no subtree nests one. */
  lemma DescendantsOfFlatList(cs: seq<Elem>, tag: string)
    requires forall i :: 0 <= i < |cs| ==> DescendantsIn(cs[i].children, tag) == []
    ensures DescendantsIn(cs, tag) == ChildrenTagged(cs, tag)
  {
    if cs != [] {
      DescendantsOfFlatList(cs[1..], tag);
    }
  }
}

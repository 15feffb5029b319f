/** The flattening step of `extract_xml` (etl_script.py): every child of
    the document root becomes one record whose fields are that child's own
    children, keyed by tag and valued by text. Parsing the bytes into a
    tree is left to the caller. */
module XmlFlatten {
  import opened Fallible
  import opened Records

  /** An already-parsed element: tag, attributes, text (absent when the
      element has none) and child elements in document order. */
  datatype Element = Element(
    tag: string,
    attributes: seq<(string, string)>,
    text: Option<string>,
    children: seq<Element>)

  /** `elem.text` as a field value. */
  function TextOf(e: Element): Value {
    match e.text
    case Some(t) => Text(t)
    case None => Null
  }

  /** The (tag, text) pairs of an element's children, in document order. */
  function ChildPairs(e: Element): seq<Field> {
    seq(|e.children|, i requires 0 <= i < |e.children| => (e.children[i].tag, TextOf(e.children[i])))
  }

  /** `{elem.tag: elem.text for elem in child}` */
  function RecordOf(child: Element): Record {
    FromPairs(ChildPairs(child))
  }

  /** `[{...} for child in root]` */
  function ExtractXml(root: Element): seq<Record> {
    seq(|root.children|, i requires 0 <= i < |root.children| => RecordOf(root.children[i]))
  }

  /** `child.children[j]` is the last child of `child` with tag `k`. */
  ghost predicate LastWithTag(child: Element, k: string, j: int) {
    && 0 <= j < |child.children|
    && child.children[j].tag == k
    && forall j' :: j < j' < |child.children| ==> child.children[j'].tag != k
  }

  /** A record has a field for exactly the tags of the child's children. */
  lemma RecordOfKeys(child: Element, k: string)
    ensures k in Keys(RecordOf(child)) <==> exists j :: 0 <= j < |child.children| && child.children[j].tag == k
  {
    var ps := ChildPairs(child);
    FromPairsKeys(ps, k);
    if k in Keys(ps) {
      var j :| 0 <= j < |ps| && Keys(ps)[j] == k;
      assert child.children[j].tag == k;
    }
    if exists j :: 0 <= j < |child.children| && child.children[j].tag == k {
      var j :| 0 <= j < |child.children| && child.children[j].tag == k;
      assert Keys(ps)[j] == k;
    }
  }

  /** A tag that occurs more than once takes the text of its last
      occurrence. */
  lemma RecordOfValues(child: Element, k: string, v: Value)
    ensures Lookup(RecordOf(child), k) == Some(v) <==>
              exists j :: LastWithTag(child, k, j) && TextOf(child.children[j]) == v
  {
    FromPairsLookup(ChildPairs(child), k, v);
    if IsLastValue(ChildPairs(child), k, v) {
      LastPairIsLastChild(child, k, v);
    }
    if exists j :: LastWithTag(child, k, j) && TextOf(child.children[j]) == v {
      var j :| LastWithTag(child, k, j) && TextOf(child.children[j]) == v;
      LastChildIsLastPair(child, k, v, j);
    }
  }

  lemma LastPairIsLastChild(child: Element, k: string, v: Value)
    requires IsLastValue(ChildPairs(child), k, v)
    ensures exists j :: LastWithTag(child, k, j) && TextOf(child.children[j]) == v
  {
    var ps := ChildPairs(child);
    var j :| 0 <= j < |ps| && ps[j] == (k, v) && forall j' :: j < j' < |ps| ==> ps[j'].0 != k;
    assert LastWithTag(child, k, j) by {
      forall j' | j < j' < |child.children| ensures child.children[j'].tag != k {
        assert ps[j'].0 == child.children[j'].tag;
      }
    }
  }

  lemma LastChildIsLastPair(child: Element, k: string, v: Value, j: int)
    requires LastWithTag(child, k, j) && TextOf(child.children[j]) == v
    ensures IsLastValue(ChildPairs(child), k, v)
  {
    var ps := ChildPairs(child);
    assert ps[j] == (k, v);
    forall j' | j < j' < |ps| ensures ps[j'].0 != k {
      assert ps[j'].0 == child.children[j'].tag;
    }
    LastAt(ps, k, v, j);
  }

  /** The tags of an element's children, in document order. */
  function ChildTags(e: Element): seq<string> {
    seq(|e.children|, i requires 0 <= i < |e.children| => e.children[i].tag)
  }

  /** The fields of a record follow the first occurrence of each tag: a
      repeated tag keeps the place of its first occurrence. This is the
      column order of the flat file. */
  lemma RecordOfOrder(child: Element)
    ensures Keys(RecordOf(child)) == FirstOccurrences(ChildTags(child))
  {
    FromPairsOrder(ChildPairs(child));
    assert Keys(ChildPairs(child)) == ChildTags(child);
  }

  /** `extract_xml` as a whole: one record per child of the root, in
      document order; record `i` has the fields named by the tags of
      child `i`'s own children, in order of first occurrence, and each
      field holds the text of the last grandchild with that tag. */
  lemma ExtractXmlFields(root: Element, i: int, k: string, v: Value)
    ensures |ExtractXml(root)| == |root.children|
    ensures 0 <= i < |root.children| ==>
              Keys(ExtractXml(root)[i]) == FirstOccurrences(ChildTags(root.children[i]))
    ensures 0 <= i < |root.children| ==>
              (k in Keys(ExtractXml(root)[i]) <==>
                 exists j :: 0 <= j < |root.children[i].children| && root.children[i].children[j].tag == k)
    ensures 0 <= i < |root.children| ==>
              (Lookup(ExtractXml(root)[i], k) == Some(v) <==>
                 exists j :: LastWithTag(root.children[i], k, j) && TextOf(root.children[i].children[j]) == v)
  {
    if 0 <= i < |root.children| {
      var child := root.children[i];
      assert ExtractXml(root)[i] == RecordOf(child);
      RecordOfOrder(child);
      RecordOfKeys(child, k);
      RecordOfValues(child, k, v);
    }
  }

  /** When the tags under a child are all different, its record lists every
      one of them, in document order. */
  lemma RecordOfDistinctTags(child: Element)
    requires forall i, j :: 0 <= i < j < |child.children| ==> child.children[i].tag != child.children[j].tag
    ensures |RecordOf(child)| == |child.children|
    ensures forall i :: 0 <= i < |child.children| ==>
              RecordOf(child)[i] == (child.children[i].tag, TextOf(child.children[i]))
  {
    FromPairsDistinct(ChildPairs(child));
  }

  /** The element with its attributes dropped and its children cut off. */
  function Bare(e: Element): Element {
    Element(e.tag, [], e.text, [])
  }

  /** The tree as far as flattening looks at it: no attributes anywhere and
      nothing below the grandchildren of the root. */
  function Shallow(root: Element): Element {
    Element(root.tag, [], root.text,
      seq(|root.children|, i requires 0 <= i < |root.children| =>
        var c := root.children[i];
        Element(c.tag, [], c.text,
          seq(|c.children|, j requires 0 <= j < |c.children| => Bare(c.children[j])))))
  }

  /** Attributes and nesting deeper than the grandchildren are dropped:
      they make no difference to the records. */
  lemma {:induction false} ExtractXmlIgnoresDepth(root: Element)
    ensures ExtractXml(Shallow(root)) == ExtractXml(root)
  {
    var s := Shallow(root);
    forall i | 0 <= i < |root.children|
      ensures RecordOf(s.children[i]) == RecordOf(root.children[i])
    {
      assert ChildPairs(s.children[i]) == ChildPairs(root.children[i]);
    }
  }

  /** `<root><rec><a>1</a><b>2</b></rec></root>` gives the single record
      `{a: "1", b: "2"}`. */
  lemma ExtractXmlExample()
    ensures ExtractXml(Element("root", [], None, [
              Element("rec", [], None, [
                Element("a", [], Some("1"), []),
                Element("b", [], Some("2"), [])])]))
            == [[("a", Text("1")), ("b", Text("2"))]]
  {
    var rec := Element("rec", [], None, [Element("a", [], Some("1"), []), Element("b", [], Some("2"), [])]);
    var root := Element("root", [], None, [rec]);
    assert ChildPairs(rec) == [("a", Text("1")), ("b", Text("2"))];
    FromPairsDistinct(ChildPairs(rec));
    assert ExtractXml(root) == [RecordOf(rec)];
  }

  /** `<root><rec><a>1</a><b>2</b><a>3</a></rec></root>` gives the single
      record `{a: "3", b: "2"}`: the last text, at the first place. */
  lemma ExtractXmlRepeatExample()
    ensures ExtractXml(Element("root", [], None, [
              Element("rec", [], None, [
                Element("a", [], Some("1"), []),
                Element("b", [], Some("2"), []),
                Element("a", [], Some("3"), [])])]))
            == [[("a", Text("3")), ("b", Text("2"))]]
  {
    var rec := Element("rec", [], None, [Element("a", [], Some("1"), []), Element("b", [], Some("2"), []),
                                         Element("a", [], Some("3"), [])]);
    var root := Element("root", [], None, [rec]);
    assert ChildPairs(rec) == [("a", Text("1")), ("b", Text("2")), ("a", Text("3"))];
    FromPairsRepeatExample();
    assert ExtractXml(root) == [RecordOf(rec)];
  }
}

/**
 An abstract BeautifulSoup tree: the parsed page is a sequence of top-level
 nodes, each a text node or an element with a tag name, an attribute map and
 children. Only the three queries the scripts use are modelled: `findAll`
 (all matching descendants in document order), `find` (the first of them)
 and `.text` (all descendant text, concatenated).
 */
module Dom {
  import opened Python

  datatype Node =
    | Text(text: string)
    | Element(name: string, attrs: map<string, string>, children: seq<Node>)

  /** The nodes below `ns` (each node, then its descendants, then its
      siblings): the order in which BeautifulSoup walks `.descendants`. */
  function Descendants(ns: seq<Node>): (ds: seq<Node>)
    ensures |ns| > 0 ==> |ds| > 0 && ds[0] == ns[0]
    decreases ns
  {
    if |ns| == 0 then []
    else
      var below := if ns[0].Element? then Descendants(ns[0].children) else [];
      [ns[0]] + below + Descendants(ns[1..])
  }

  /** Walking a document made of two parts walks the first, then the second. */
  lemma {:induction false} DescendantsAppend(a: seq<Node>, b: seq<Node>)
    ensures Descendants(a + b) == Descendants(a) + Descendants(b)
    decreases a
  {
    if |a| > 0 {
      assert (a + b)[0] == a[0];
      assert (a + b)[1..] == a[1..] + b;
      DescendantsAppend(a[1..], b);
      var below := if a[0].Element? then Descendants(a[0].children) else [];
      assert Descendants(a + b) == [a[0]] + below + Descendants(a[1..] + b);
    } else {
      assert a + b == b;
    }
  }

  /** The elements of `ns` whose tag name is `name` and whose attributes pass
      `attrTest`, in document order. */
  function Select(ns: seq<Node>, name: string, attrTest: map<string, string> -> bool): (r: seq<Node>)
    ensures forall k :: 0 <= k < |r| ==> r[k] in ns && r[k].Element? && r[k].name == name && attrTest(r[k].attrs)
    ensures forall n :: n in ns && n.Element? && n.name == name && attrTest(n.attrs) ==> n in r
  {
    if |ns| == 0 then []
    else
      var n := ns[0];
      var rest := Select(ns[1..], name, attrTest);
      if n.Element? && n.name == name && attrTest(n.attrs) then [n] + rest else rest
  }

  /** `Select` looks at the first node, then at the rest. */
  lemma SelectStep(ns: seq<Node>, name: string, attrTest: map<string, string> -> bool)
    requires |ns| > 0
    ensures Select(ns, name, attrTest)
         == (if ns[0].Element? && ns[0].name == name && attrTest(ns[0].attrs) then [ns[0]] else [])
            + Select(ns[1..], name, attrTest)
  {
    if !(ns[0].Element? && ns[0].name == name && attrTest(ns[0].attrs)) {
      assert [] + Select(ns[1..], name, attrTest) == Select(ns[1..], name, attrTest);
    }
  }

  lemma {:induction false} SelectAppend(a: seq<Node>, b: seq<Node>, name: string, attrTest: map<string, string> -> bool)
    ensures Select(a + b, name, attrTest) == Select(a, name, attrTest) + Select(b, name, attrTest)
  {
    if |a| > 0 {
      var n := a[0];
      var here: seq<Node> := if n.Element? && n.name == name && attrTest(n.attrs) then [n] else [];
      assert Select(a + b, name, attrTest) == here + Select(a[1..] + b, name, attrTest) by {
        assert (a + b)[0] == n;
        assert (a + b)[1..] == a[1..] + b;
      }
      SelectAppend(a[1..], b, name, attrTest);
    } else {
      assert a + b == b;
    }
  }

  /** `findAll(name, attrs)` below the nodes `ns`. */
  function FindAll(ns: seq<Node>, name: string, attrTest: map<string, string> -> bool): seq<Node> {
    Select(Descendants(ns), name, attrTest)
  }

  /** Matching a document made of two parts matches the first part, then the second. */
  lemma FindAllAppend(a: seq<Node>, b: seq<Node>, name: string, attrTest: map<string, string> -> bool)
    ensures FindAll(a + b, name, attrTest) == FindAll(a, name, attrTest) + FindAll(b, name, attrTest)
  {
    DescendantsAppend(a, b);
    SelectAppend(Descendants(a), Descendants(b), name, attrTest);
  }

  /** BeautifulSoup's test of an element's attributes against a `class`
      filter (a class attribute holds several space-separated names). */
  type ClassTest = (map<string, string>, string) -> bool

  /** The attribute filter `{"class": cls}`. */
  function HasClass(classTest: ClassTest, cls: string): map<string, string> -> bool {
    attrs => classTest(attrs, cls)
  }

  /** No attribute filter. */
  function AnyAttrs(): map<string, string> -> bool {
    attrs => true
  }

  /** The attribute filter that keeps only elements without attributes
      (`p.attrs == {}`). */
  function NoAttrs(): map<string, string> -> bool {
    attrs => attrs == map[]
  }

  /** `.text` of each node, in order. */
  function TextsOf(ns: seq<Node>): seq<string> {
    seq(|ns|, k requires 0 <= k < |ns| => TextOf(ns[k]))
  }

  /** `.text`: the text of every text node below, concatenated in order. */
  function TextOf(n: Node): string
    decreases n
  {
    match n
    case Text(t) => t
    case Element(_, _, children) => TextOfAll(children)
  }

  function TextOfAll(ns: seq<Node>): string
    decreases ns
  {
    if |ns| == 0 then "" else TextOf(ns[0]) + TextOfAll(ns[1..])
  }
}

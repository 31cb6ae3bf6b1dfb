/** The parsed HTML that the crawler reads and the publisher writes, as a tree of values.
    Parsing and re-serialisation (`BeautifulSoup(...)`, `str(soup)`) are not part of this
    model: a document is given, and produced, as its list of top-level nodes. */
module Html {
  import opened Py
  import opened Text

  /** A text node or an element. The `class` attribute is kept apart from the other
      attributes because the parser presents it as a list of class names. */
  datatype Node =
    | TextNode(text: string)
    | Element(tag: string, attrs: map<string, string>, classes: seq<string>, children: seq<Node>)

  /** `get_text(strip=True)` of a list of nodes: every text descendant stripped of
      surrounding whitespace, concatenated in document order with no separator. */
  function GetText(ns: seq<Node>): string
    decreases ns
  {
    if ns == [] then "" else NodeText(ns[0]) + GetText(ns[1..])
  }

  function NodeText(n: Node): string
    decreases n
  {
    match n
    case TextNode(t) => Strip(t)
    case Element(_, _, _, children) => GetText(children)
  }

  predicate IsImg(n: Node) { n.Element? && n.tag == "img" }

  /** The `src` attribute of an element, as `tag.get("src")` gives it. */
  function Src(n: Node): Option<string>
    requires n.Element?
  {
    if "src" in n.attrs then Some(n.attrs["src"]) else None
  }

  /** The img elements of a list of nodes, in document order (what `find_all("img")` finds). */
  function Images(ns: seq<Node>): seq<Node>
    decreases ns
  {
    if ns == [] then [] else NodeImages(ns[0]) + Images(ns[1..])
  }

  function NodeImages(n: Node): seq<Node>
    decreases n
  {
    match n
    case TextNode(_) => []
    case Element(tag, _, _, children) => (if tag == "img" then [n] else []) + Images(children)
  }

  lemma {:induction false} ImagesAreImgs(ns: seq<Node>)
    ensures forall k | 0 <= k < |Images(ns)| :: IsImg(Images(ns)[k])
    decreases ns
  {
    if ns != [] {
      NodeImagesAreImgs(ns[0]);
      ImagesAreImgs(ns[1..]);
      var a, b := NodeImages(ns[0]), Images(ns[1..]);
      assert forall k | 0 <= k < |a + b| :: (a + b)[k] == if k < |a| then a[k] else b[k - |a|];
    }
  }

  lemma {:induction false} NodeImagesAreImgs(n: Node)
    ensures forall k | 0 <= k < |NodeImages(n)| :: IsImg(NodeImages(n)[k])
    decreases n
  {
    match n
    case TextNode(_) =>
    case Element(tag, _, _, children) =>
      ImagesAreImgs(children);
      var a, b := if tag == "img" then [n] else [], Images(children);
      assert forall k | 0 <= k < |a + b| :: (a + b)[k] == if k < |a| then a[k] else b[k - |a|];
  }
}

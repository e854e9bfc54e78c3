/** An abstract parsed HTML document and the BeautifulSoup queries the
    scraper issues against it.

    A node is an element (tag name, attributes, the list of CSS classes
    that BeautifulSoup splits the `class` attribute into, children) or a
    text string. `find` and `find_all` search the DESCENDANTS of a node
    (never the node itself) in document order, i.e. preorder. */
module Dom {
  import opened Wrappers
  import opened Scan
  import opened Text

  datatype Node =
    | Element(tag: string, attrs: map<string, string>, classes: seq<string>, children: seq<Node>)
    | TextNode(content: string)

  /** The filters passed to `find` / `find_all` in the scraper. */
  datatype Query =
      /** `find(name)` */
    | Tag(name: string)
      /** `find(name, attr=True)`: the attribute is present, whatever its value */
    | TagWithAttr(name: string, attr: string)
      /** `find(class_=re.compile('w1|w2|...'))`: some class contains some word */
    | ClassMentions(words: seq<string>)
      /** `find_all('div', {'class': c})`: `c` is one of the classes */
    | DivWithClass(cls: string)
      /** `find_all('div', {attr: value})` */
    | DivWithAttr(attr: string, value: string)
      /** `find_all('a', href=re.compile('w1|w2|...'))`: the href contains some word */
    | AnchorHrefMentions(words: seq<string>)

  predicate MentionsAny(s: string, words: seq<string>) {
    exists j :: 0 <= j < |words| && Contains(s, words[j])
  }

  predicate Matches(q: Query, n: Node) {
    n.Element? &&
    match q
    case Tag(name) => n.tag == name
    case TagWithAttr(name, attr) => n.tag == name && attr in n.attrs
    case ClassMentions(words) => exists i :: 0 <= i < |n.classes| && MentionsAny(n.classes[i], words)
    case DivWithClass(cls) => n.tag == "div" && cls in n.classes
    case DivWithAttr(attr, value) => n.tag == "div" && attr in n.attrs && n.attrs[attr] == value
    case AnchorHrefMentions(words) => n.tag == "a" && "href" in n.attrs && MentionsAny(n.attrs["href"], words)
  }

  /** All descendants of `n` in document order. */
  function Descendants(n: Node): seq<Node> {
    match n
    case TextNode(_) => []
    case Element(_, _, _, children) => Forest(children)
  }

  /** The nodes of a list of sibling trees, each followed by its descendants. */
  function Forest(ns: seq<Node>): seq<Node> {
    if ns == [] then [] else [ns[0]] + Descendants(ns[0]) + Forest(ns[1..])
  }

  /** The nodes of `ns` that match `q`, in their original order. */
  function Select(ns: seq<Node>, q: Query): (r: seq<Node>)
    ensures |r| <= |ns|
    ensures forall x :: x in r <==> x in ns && Matches(q, x)
  {
    if ns == [] then []
    else (if Matches(q, ns[0]) then [ns[0]] else []) + Select(ns[1..], q)
  }

  /** `n.find_all(q)`. */
  function FindAll(n: Node, q: Query): seq<Node> {
    Select(Descendants(n), q)
  }

  /** `n.find(q)`: the first descendant in document order that matches. */
  function Find(n: Node, q: Query): (r: Option<Node>)
    ensures r.None? <==> forall x :: x in Descendants(n) ==> !Matches(q, x)
    ensures r.Some? ==> Matches(q, r.value)
    ensures r.Some? ==> exists i :: (0 <= i < |Descendants(n)| && Descendants(n)[i] == r.value
                                     && forall k :: 0 <= k < i ==> !Matches(q, Descendants(n)[k]))
  {
    var ds := Descendants(n);
    var p := (i: nat) => i < |ds| && Matches(q, ds[i]);
    match FirstIndex(|ds|, p, 0)
    case Some(i) =>
      assert p(i) && forall k :: 0 <= k < i ==> !p(k);
      forall k | 0 <= k < i ensures !Matches(q, ds[k]) {
        assert !p(k);
      }
      assert 0 <= i < |ds| && ds[i] == ds[i] && forall k :: 0 <= k < i ==> !Matches(q, ds[k]);
      Some(ds[i])
    case None =>
      assert forall x :: x in ds ==> !Matches(q, x) by {
        forall x | x in ds ensures !Matches(q, x) {
          var k :| 0 <= k < |ds| && ds[k] == x;
          assert !p(k);
        }
      }
      None
  }

  /** `n.find(q1) or n.find(q2) or ...`: the first query in the list that
      finds anything decides (a BeautifulSoup tag is always truthy). */
  function FindFirstOf(n: Node, qs: seq<Query>): (r: Option<Node>)
    ensures r.None? <==> forall k :: 0 <= k < |qs| ==> Find(n, qs[k]).None?
    ensures r.Some? ==> exists k :: (0 <= k < |qs| && Find(n, qs[k]) == r
                                     && forall j :: 0 <= j < k ==> Find(n, qs[j]).None?)
  {
    var hit := (k: nat) => k < |qs| && Find(n, qs[k]).Some?;
    match FirstIndex(|qs|, hit, 0)
    case None =>
      forall k | 0 <= k < |qs| ensures Find(n, qs[k]).None? {
        assert !hit(k);
      }
      None
    case Some(k) =>
      forall j | 0 <= j < k ensures Find(n, qs[j]).None? {
        assert !hit(j);
      }
      Find(n, qs[k])
  }

  /** The text strings among `ns`, concatenated (`get_text()`). */
  function ConcatText(ns: seq<Node>): string {
    if ns == [] then ""
    else (if ns[0].TextNode? then ns[0].content else "") + ConcatText(ns[1..])
  }

  /** The text strings among `ns`, each stripped, concatenated
      (`get_text(strip=True)`); the result never begins or ends with
      whitespace. */
  function ConcatStripped(ns: seq<Node>): (r: string)
    ensures Trimmed(r)
  {
    if ns == [] then ""
    else
      var piece := if ns[0].TextNode? then Strip(ns[0].content) else "";
      var rest := ConcatStripped(ns[1..]);
      TrimmedConcat(piece, rest);
      piece + rest
  }


  /** `n.get_text()`. */
  function GetText(n: Node): string {
    ConcatText(Descendants(n))
  }

  /** `n.get_text(strip=True)`. */
  function GetStrippedText(n: Node): string {
    ConcatStripped(Descendants(n))
  }

  /** `find` returns the first element of what `find_all` returns. */
  lemma {:induction false} FindIsFirstOfFindAll(n: Node, q: Query)
    ensures Find(n, q) == if FindAll(n, q) == [] then None else Some(FindAll(n, q)[0])
  {
    var ds := Descendants(n);
    match Find(n, q)
    case None =>
      SelectNone(ds, q);
    case Some(x) =>
      var i :| 0 <= i < |ds| && ds[i] == x && Matches(q, x)
        && forall k :: 0 <= k < i ==> !Matches(q, ds[k]);
      SelectFirst(ds, q, i);
  }

  lemma {:induction false} SelectNone(ns: seq<Node>, q: Query)
    requires forall x :: x in ns ==> !Matches(q, x)
    ensures Select(ns, q) == []
    decreases |ns|
  {
    if ns != [] {
      assert ns[0] in ns;
      SelectNone(ns[1..], q);
    }
  }

  /** If index `i` holds the first match of `q` in `ns`, `Select` starts with it. */
  lemma {:induction false} SelectFirst(ns: seq<Node>, q: Query, i: nat)
    requires i < |ns| && Matches(q, ns[i])
    requires forall k :: 0 <= k < i ==> !Matches(q, ns[k])
    ensures Select(ns, q) != [] && Select(ns, q)[0] == ns[i]
    decreases i
  {
    if i > 0 {
      SelectFirst(ns[1..], q, i - 1);
    }
  }

  /** `find_all` over a document that is a list of subtrees is the
      concatenation of `find_all` over each (document order is kept). */
  lemma {:induction false} SelectAppend(a: seq<Node>, b: seq<Node>, q: Query)
    ensures Select(a + b, q) == Select(a, q) + Select(b, q)
    decreases |a|
  {
    if a == [] {
      assert a + b == b;
    } else {
      assert (a + b)[0] == a[0];
      assert (a + b)[1..] == a[1..] + b;
      SelectAppend(a[1..], b, q);
    }
  }
}

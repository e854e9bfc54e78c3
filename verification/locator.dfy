/** Finding the vehicle listings on the inventory page: seven `div`
    selectors tried in order, the first that matches anything wins;
    when none does, the hrefs of anchors pointing at "/vehicle/",
    "/inventory/" or "/car/" paths, de-duplicated, at most 50 of them. */
module Locator {
  import opened Wrappers
  import opened Scan
  import opened Text
  import opened Dom

  const VehicleSelectors: seq<Query> := [
    DivWithClass("vehicle-card"),
    DivWithClass("inventory-item"),
    DivWithClass("car-item"),
    DivWithClass("vehicle-listing"),
    DivWithClass("vehicle"),
    DivWithClass("inventory-vehicle"),
    DivWithAttr("data-type", "vehicle")
  ]

  /** `href=re.compile(r'/(vehicle|inventory|car)/')` */
  const VehicleLinkQuery := AnchorHrefMentions(["/vehicle/", "/inventory/", "/car/"])

  /** At most this many detail pages are visited. */
  const LinkLimit := 50

  datatype Listings =
    | Cards(elements: seq<Node>)
    | Links(hrefs: seq<string>)

  /** `[link.get('href') for link in links if link.get('href')]`, in
      document order, duplicates included. */
  function LinkTargets(doc: Node): seq<string> {
    Hrefs(FindAll(doc, VehicleLinkQuery))
  }

  function Hrefs(anchors: seq<Node>): (r: seq<string>)
    ensures forall h :: h in r ==> h != ""
    ensures forall h :: h in r ==> exists i :: (0 <= i < |anchors| && anchors[i].Element?
                                                && "href" in anchors[i].attrs && anchors[i].attrs["href"] == h)
    ensures forall i :: (0 <= i < |anchors| && anchors[i].Element? && "href" in anchors[i].attrs
                         && anchors[i].attrs["href"] != "") ==> anchors[i].attrs["href"] in r
  {
    if anchors == [] then []
    else
      var a := anchors[0];
      var rest := Hrefs(anchors[1..]);
      assert forall i :: 1 <= i < |anchors| ==> anchors[i] == anchors[1..][i - 1];
      if a.Element? && "href" in a.attrs && a.attrs["href"] != "" then [a.attrs["href"]] + rest else rest
  }

  predicate NoDuplicates(xs: seq<string>) {
    forall i, j :: 0 <= i < j < |xs| ==> xs[i] != xs[j]
  }

  /** `order` is one possible value of `list(set(xs))`: every element of
      `xs` exactly once, in an order Python leaves unspecified. */
  predicate ListsSetOf(order: seq<string>, xs: seq<string>) {
    && NoDuplicates(order)
    && (forall x :: x in order ==> x in xs)
    && (forall x :: x in xs ==> x in order)
  }

  /** One admissible order for `list(set(xs))`: first occurrences. */
  function Distinct(xs: seq<string>): (r: seq<string>)
    ensures ListsSetOf(r, xs)
    decreases |xs|
  {
    if xs == [] then []
    else
      var rest := Distinct(xs[..|xs| - 1]);
      var x := xs[|xs| - 1];
      assert forall y :: y in xs <==> y in xs[..|xs| - 1] || y == x;
      if x in rest then rest else rest + [x]
  }

  /** The index of the first selector that matches anything. */
  function FirstHit(doc: Node, selectors: seq<Query>): (r: Option<nat>)
    ensures r.Some? ==> r.value < |selectors| && FindAll(doc, selectors[r.value]) != []
    ensures r.Some? ==> forall j :: 0 <= j < r.value ==> FindAll(doc, selectors[j]) == []
    ensures r.None? <==> forall j :: 0 <= j < |selectors| ==> FindAll(doc, selectors[j]) == []
  {
    var hit := (k: nat) => k < |selectors| && FindAll(doc, selectors[k]) != [];
    match FirstIndex(|selectors|, hit, 0)
    case None =>
      forall j | 0 <= j < |selectors| ensures FindAll(doc, selectors[j]) == [] {
        assert !hit(j);
      }
      None
    case Some(k) =>
      forall j | 0 <= j < k ensures FindAll(doc, selectors[j]) == [] {
        assert !hit(j);
      }
      Some(k)
  }

  /** The listing elements of the first selector with any match; otherwise
      the first 50 of the de-duplicated vehicle links, taken in the order
      `linkOrder` that `list(set(...))` produced. */
  function Locate(doc: Node, linkOrder: seq<string>): (r: Listings)
    requires ListsSetOf(linkOrder, LinkTargets(doc))
    ensures r.Links? <==> forall j :: 0 <= j < |VehicleSelectors| ==> FindAll(doc, VehicleSelectors[j]) == []
    ensures r.Cards? ==> var k := FirstHit(doc, VehicleSelectors).value;
      r.elements == FindAll(doc, VehicleSelectors[k]) && r.elements != []
      && forall j :: 0 <= j < k ==> FindAll(doc, VehicleSelectors[j]) == []
    ensures r.Cards? ==> forall e :: e in r.elements ==> e.Element? && e.tag == "div"
    ensures r.Links? ==> |r.hrefs| == Min(LinkLimit, |linkOrder|) && NoDuplicates(r.hrefs)
    ensures r.Links? ==> r.hrefs == linkOrder[..Min(LinkLimit, |linkOrder|)]
    ensures r.Links? ==> forall h :: h in r.hrefs ==> h in LinkTargets(doc)
  {
    match FirstHit(doc, VehicleSelectors)
    case Some(k) =>
      SelectorsAreDivQueries(k);
      DivQueryFindsDivs(doc, VehicleSelectors[k]);
      Cards(FindAll(doc, VehicleSelectors[k]))
    case None =>
      TakeDistinct(linkOrder, LinkLimit);
      Links(Take(linkOrder, LinkLimit))
  }

  /** Every listing selector asks for `div` elements. */
  lemma SelectorsAreDivQueries(k: nat)
    requires k < |VehicleSelectors|
    ensures VehicleSelectors[k].DivWithClass? || VehicleSelectors[k].DivWithAttr?
  {
  }

  lemma DivQueryFindsDivs(doc: Node, q: Query)
    requires q.DivWithClass? || q.DivWithAttr?
    ensures forall e :: e in FindAll(doc, q) ==> e.Element? && e.tag == "div"
  {
    forall e | e in FindAll(doc, q) ensures e.Element? && e.tag == "div" {
      assert Matches(q, e);
    }
  }

  /** A prefix of a list without duplicates has none and holds only its
      elements. */
  lemma TakeDistinct(xs: seq<string>, n: nat)
    requires NoDuplicates(xs)
    ensures NoDuplicates(Take(xs, n))
    ensures forall x :: x in Take(xs, n) ==> x in xs
  {
    var t := Take(xs, n);
    forall x | x in t ensures x in xs {
      var i :| 0 <= i < |t| && t[i] == x;
      assert xs[i] == x;
    }
  }

  /** A selector earlier in the list always beats a later one: if selector
      `j` matches anything, the cards come from selector `j` or an earlier one. */
  lemma SelectorPriority(doc: Node, linkOrder: seq<string>, j: nat)
    requires ListsSetOf(linkOrder, LinkTargets(doc))
    requires j < |VehicleSelectors| && FindAll(doc, VehicleSelectors[j]) != []
    ensures Locate(doc, linkOrder).Cards?
    ensures FirstHit(doc, VehicleSelectors).value <= j
  {
  }

  /** With at most 50 distinct vehicle links, every one of them is visited. */
  lemma {:induction false} FewLinksAllVisited(doc: Node, linkOrder: seq<string>)
    requires ListsSetOf(linkOrder, LinkTargets(doc))
    requires Locate(doc, linkOrder).Links?
    requires |linkOrder| <= LinkLimit
    ensures forall h :: h in LinkTargets(doc) ==> h in Locate(doc, linkOrder).hrefs
  {
    assert Locate(doc, linkOrder).hrefs == linkOrder;
  }
}

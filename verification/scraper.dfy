/** `scrape_inventory`: open the inventory page, locate the listings, parse
    each card or visit each detail link, and collect cars and errors into a
    response. The browser is the `Session` parameter; the order Python's
    `set` gives the de-duplicated links is the `linkOrder` parameter. */
module Scraper {
  import opened Wrappers
  import opened Collect
  import opened Text
  import opened Dom
  import opened Urls
  import opened Extractors
  import opened Listings
  import opened Browser
  import opened Locator
  import opened CardParser
  import opened DetailParser
  import opened Responses

  const CardErrorPrefix := "Failed to parse vehicle: "
  const ScrapeErrorPrefix := "Scraping error: "

  /** One step of the card loop: the car, or the message the exception
      handler records. */
  function CardOutcome(elem: Node, base: string): (r: Result<CarListing, string>)
    ensures r.Failure? <==> ParseCard(elem, base).Failure?
    ensures r.Failure? ==> r.error == CardErrorPrefix + FloatError
    ensures r.Success? ==> r.value == ParseCard(elem, base).value.value
  {
    match ParseCard(elem, base)
    case Failure(e) => Failure(CardErrorPrefix + e)
    case Success(car) => Success(car.value)
  }

  function CardOutcomes(elems: seq<Node>, base: string): (rs: seq<Result<CarListing, string>>)
    ensures |rs| == |elems|
  {
    seq(|elems|, i requires 0 <= i < |elems| => CardOutcome(elems[i], base))
  }

  /** The card loop: a card whose parse raises adds an error message, any
      other adds its car. Every card contributes exactly one of the two. */
  function ParseCards(elems: seq<Node>, base: string): (out: (seq<CarListing>, seq<string>))
    ensures |out.0| + |out.1| == |elems|
    ensures forall e :: e in out.1 ==> e == CardErrorPrefix + FloatError
  {
    var rs := CardOutcomes(elems, base);
    forall e | e in Errors(rs) ensures e == CardErrorPrefix + FloatError {
      var i :| 0 <= i < |rs| && rs[i] == Failure(e);
      assert rs[i] == CardOutcome(elems[i], base);
    }
    (Values(rs), Errors(rs))
  }

  /** The card parses without raising. */
  predicate Parses(elem: Node, base: string) {
    ParseCard(elem, base).Success?
  }

  /** The card loop reports no error exactly when every card parses. */
  lemma NoErrorsIffAllParse(elems: seq<Node>, base: string)
    ensures ParseCards(elems, base).1 == [] <==> forall i :: 0 <= i < |elems| ==> Parses(elems[i], base)
  {
    var rs := CardOutcomes(elems, base);
    NoErrors(rs);
    forall i | 0 <= i < |elems| ensures rs[i].Success? <==> Parses(elems[i], base) {
      assert rs[i] == CardOutcome(elems[i], base);
    }
  }

  /** Every card contributes: its car when it parses, the error message
      otherwise. */
  lemma CardsAccounted(elems: seq<Node>, base: string, i: nat)
    requires i < |elems|
    ensures Parses(elems[i], base) ==> ParseCard(elems[i], base).value.value in ParseCards(elems, base).0
    ensures !Parses(elems[i], base) ==> CardErrorPrefix + FloatError in ParseCards(elems, base).1
  {
    var rs := CardOutcomes(elems, base);
    SplitComplete(rs, i);
    assert rs[i] == CardOutcome(elems[i], base);
  }

  /** Parsing the cards of two consecutive runs of the page is parsing each
      run and concatenating, cars and errors alike. */
  lemma ParseCardsAppend(a: seq<Node>, b: seq<Node>, base: string)
    ensures ParseCards(a + b, base).0 == ParseCards(a, base).0 + ParseCards(b, base).0
    ensures ParseCards(a + b, base).1 == ParseCards(a, base).1 + ParseCards(b, base).1
  {
    var ra, rb, rab := CardOutcomes(a, base), CardOutcomes(b, base), CardOutcomes(a + b, base);
    forall i | 0 <= i < |rab| ensures rab[i] == (ra + rb)[i] {
      if i < |a| {
        assert (a + b)[i] == a[i];
      } else {
        assert (a + b)[i] == b[i - |a|];
      }
    }
    assert rab == ra + rb;
    ValuesAppend(ra, rb);
    ErrorsAppend(ra, rb);
  }

  function DetailOutcomes(base: string, links: seq<string>, browse: string -> Visit): (os: seq<Option<CarListing>>)
    ensures |os| == |links|
  {
    seq(|links|, i requires 0 <= i < |links| => ScrapeDetail(base, links[i], browse))
  }

  /** The detail loop: a page that yields no car is skipped silently, since
      `_scrape_vehicle_detail` catches its own errors. */
  function ScrapeDetails(base: string, links: seq<string>, browse: string -> Visit): (r: seq<CarListing>)
    ensures |r| <= |links|
    ensures forall c :: c in r ==> (c.listingUrl.Some? &&
      exists i :: 0 <= i < |links| && c.listingUrl.value == Resolve(base, links[i]))
  {
    var os := DetailOutcomes(base, links, browse);
    forall c | c in Somes(os)
      ensures c.listingUrl.Some? && exists i :: 0 <= i < |links| && c.listingUrl.value == Resolve(base, links[i])
    {
      var i :| 0 <= i < |os| && os[i] == Some(c);
      assert os[i] == ScrapeDetail(base, links[i], browse);
    }
    Somes(os)
  }

  /** The detail page yields a car. */
  predicate Loads(base: string, link: string, browse: string -> Visit) {
    ScrapeDetail(base, link, browse).Some?
  }

  /** Every visited link yields a car exactly when every detail page loads
      and parses. */
  lemma AllPagesKept(base: string, links: seq<string>, browse: string -> Visit)
    ensures |ScrapeDetails(base, links, browse)| == |links| <==> forall i :: 0 <= i < |links| ==> Loads(base, links[i], browse)
  {
    var os := DetailOutcomes(base, links, browse);
    SomesAll(os);
    assert forall i :: 0 <= i < |links| ==> os[i] == ScrapeDetail(base, links[i], browse);
  }

  /** Every detail page that yields a car contributes it. */
  lemma LoadedPagesKept(base: string, links: seq<string>, browse: string -> Visit, i: nat)
    requires i < |links|
    ensures Loads(base, links[i], browse) ==>
      ScrapeDetail(base, links[i], browse).value in ScrapeDetails(base, links, browse)
  {
    var os := DetailOutcomes(base, links, browse);
    assert os[i] == ScrapeDetail(base, links[i], browse);
    if os[i].Some? {
      SomesComplete(os, i);
    }
  }

  /** Visiting two consecutive runs of links is visiting each and
      concatenating the cars. */
  lemma ScrapeDetailsAppend(base: string, a: seq<string>, b: seq<string>, browse: string -> Visit)
    ensures ScrapeDetails(base, a + b, browse) == ScrapeDetails(base, a, browse) + ScrapeDetails(base, b, browse)
  {
    var oa, ob, oab := DetailOutcomes(base, a, browse), DetailOutcomes(base, b, browse), DetailOutcomes(base, a + b, browse);
    forall i | 0 <= i < |oab| ensures oab[i] == (oa + ob)[i] {
      if i < |a| {
        assert (a + b)[i] == a[i];
      } else {
        assert (a + b)[i] == b[i - |a|];
      }
    }
    assert oab == oa + ob;
    SomesAppend(oa, ob);
  }

  /** `linkOrder` is admissible for the inventory page the session shows. */
  predicate LinkOrderFits(url: string, session: Session, linkOrder: seq<string>) {
    var v := session.browse(InventoryUrl(url));
    v.Loaded? ==> ListsSetOf(linkOrder, LinkTargets(v.doc))
  }

  /** `scrape_inventory(url)`. A failure to start the browser or to load the
      inventory page ends the scrape with one "Scraping error" message; an
      inventory page whose `<body>` wait expires is still parsed. */
  function ScrapeInventory(url: string, session: Session, linkOrder: seq<string>, scrapedAt: string): (r: ScraperResponse)
    requires LinkOrderFits(url, session, linkOrder)
    ensures WellFormed(r) && r.scrapedAt == scrapedAt
    ensures session.startError.Some? ==> r.cars == [] && r.errors == [ScrapeErrorPrefix + session.startError.value]
    ensures session.startError.None? && session.browse(InventoryUrl(url)).Failed? ==>
      r.cars == [] && r.errors == [ScrapeErrorPrefix + session.browse(InventoryUrl(url)).message]
    ensures session.startError.None? && session.browse(InventoryUrl(url)).Loaded? ==>
      var l := Locate(session.browse(InventoryUrl(url)).doc, linkOrder);
      && (l.Cards? ==> |r.cars| + |r.errors| == |l.elements|
                       && forall e :: e in r.errors ==> e == CardErrorPrefix + FloatError)
      && (l.Cards? ==> r.cars == ParseCards(l.elements, url).0 && r.errors == ParseCards(l.elements, url).1)
      && (l.Links? ==> r.errors == [] && |r.cars| <= LinkLimit && r.cars == ScrapeDetails(url, l.hrefs, session.browse))
  {
    if session.startError.Some? then
      Respond([], [ScrapeErrorPrefix + session.startError.value], scrapedAt)
    else
      match session.browse(InventoryUrl(url))
      case Failed(m) => Respond([], [ScrapeErrorPrefix + m], scrapedAt)
      case Loaded(doc, _) =>
        match Locate(doc, linkOrder)
        case Cards(elems) =>
          var out := ParseCards(elems, url);
          Respond(out.0, out.1, scrapedAt)
        case Links(hrefs) =>
          Respond(ScrapeDetails(url, hrefs, session.browse), [], scrapedAt)
  }

  /** Every car the scrape reports in link mode was read from a detail page
      reached from the dealership's own URL, and carries that page's URL. */
  lemma LinkModeUrls(url: string, session: Session, linkOrder: seq<string>, scrapedAt: string)
    requires LinkOrderFits(url, session, linkOrder)
    requires session.startError.None? && session.browse(InventoryUrl(url)).Loaded?
    requires Locate(session.browse(InventoryUrl(url)).doc, linkOrder).Links?
    ensures forall c :: c in ScrapeInventory(url, session, linkOrder, scrapedAt).cars ==>
      c.listingUrl.Some? && exists h :: (h in LinkTargets(session.browse(InventoryUrl(url)).doc) &&
        c.listingUrl.value == Resolve(url, h))
  {
    var doc := session.browse(InventoryUrl(url)).doc;
    var hrefs := Locate(doc, linkOrder).hrefs;
    forall c | c in ScrapeDetails(url, hrefs, session.browse)
      ensures exists h :: h in LinkTargets(doc) && c.listingUrl.value == Resolve(url, h)
    {
      var i :| 0 <= i < |hrefs| && c.listingUrl.value == Resolve(url, hrefs[i]);
      assert hrefs[i] in hrefs;
    }
  }
}

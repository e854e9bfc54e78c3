/** `_parse_vehicle_card`: one listing element to one vehicle record. */
module CardParser {
  import opened Wrappers
  import opened Dom
  import opened Urls
  import opened Extractors
  import opened Images
  import opened Listings

  /** `find('h2') or find('h3') or find('h4') or find(class_=re.compile(r'title|name'))` */
  const TitleQueries: seq<Query> := [Tag("h2"), Tag("h3"), Tag("h4"), ClassMentions(["title", "name"])]
  const PriceQuery := ClassMentions(["price"])
  const MileageQuery := ClassMentions(["mileage", "miles"])
  const LinkQuery := TagWithAttr("a", "href")

  /** Year, make and model from the text of the first element the queries
      find, or nothing when they find none. */
  function TitleOf(root: Node, queries: seq<Query>): (t: TitleParts)
    ensures FindFirstOf(root, queries).None? ==> t == NoTitle
    ensures FindFirstOf(root, queries).Some? ==> t == ParseTitle(GetStrippedText(FindFirstOf(root, queries).value))
  {
    match FindFirstOf(root, queries)
    case None => NoTitle
    case Some(e) => ParseTitle(GetStrippedText(e))
  }

  /** The price of the first element whose class mentions "price"; the
      failure of `float('')` propagates. */
  function PriceOf(root: Node): Result<Option<nat>, string> {
    match Find(root, PriceQuery)
    case None => Success(None)
    case Some(e) => ExtractPrice(GetStrippedText(e))
  }

  /** The resolved href of the card's first anchor that has one. */
  function CardLink(card: Node, base: string): (r: Option<string>)
    ensures r.Some? <==> Find(card, LinkQuery).Some?
    ensures r.Some? ==> var a := Find(card, LinkQuery).value;
      "href" in a.attrs && r.value == Resolve(base, a.attrs["href"])
  {
    match Find(card, LinkQuery)
    case None => None
    case Some(a) => Some(Resolve(base, a.attrs["href"]))
  }

  /** The record `_parse_vehicle_card` builds once the price is known: the
      function's own `None` return is taken only when no field was
      assigned, which cannot happen because `image_urls` always is. Only
      year, make, model, price, mileage, listing URL and images are ever
      filled in. */
  function CardRecord(card: Node, base: string, price: Option<nat>): (r: Option<CarListing>)
    ensures r.Some?
    ensures r.Some? ==> var car := r.value;
      && car.imageUrls == ImageUrls(base, FindAll(card, Tag("img")), false)
      && car.listingUrl == CardLink(card, base)
      && car.year == TitleOf(card, TitleQueries).year
      && car.make == TitleOf(card, TitleQueries).make
      && car.model == TitleOf(card, TitleQueries).model
      && car.price == price
      && car.mileage == (if Find(card, MileageQuery).Some? then ExtractNumber(GetStrippedText(Find(card, MileageQuery).value)) else None)
      && car.vin.None? && car.stockNumber.None? && car.description.None? && car.features == []
      && car.exteriorColor.None? && car.transmission.None?
  {
    var titleElem := FindFirstOf(card, TitleQueries);
    var title := TitleOf(card, TitleQueries);
    var priceElem := Find(card, PriceQuery);
    var mileageElem := Find(card, MileageQuery);
    var mileage := if mileageElem.Some? then ExtractNumber(GetStrippedText(mileageElem.value)) else None;
    var link := CardLink(card, base);
    var images := ImageUrls(base, FindAll(card, Tag("img")), false);
    var filled :=
      (if titleElem.Some? then {"year", "make", "model"} else {})
      + (if priceElem.Some? then {"price"} else {})
      + (if mileageElem.Some? then {"mileage"} else {})
      + (if link.Some? then {"listing_url"} else {})
      + {"image_urls"};
    var car := Blank.(year := title.year, make := title.make, model := title.model, price := price,
                      mileage := mileage, listingUrl := link, imageUrls := images);
    if filled != {} then Some(car) else None
  }

  /** `_parse_vehicle_card`. The outer Result is whether the parse raised,
      which only the price conversion can do; it never returns `None`. */
  function ParseCard(card: Node, base: string): (r: Result<Option<CarListing>, string>)
    ensures r.Success? ==> r.value.Some?
    ensures r.Failure? <==> PriceOf(card).Failure?
    ensures r.Failure? ==> r.error == FloatError
    ensures r.Success? ==> r.value == CardRecord(card, base, PriceOf(card).value)
  {
    match PriceOf(card)
    case Failure(e) => Failure(e)
    case Success(price) => Success(CardRecord(card, base, price))
  }
}

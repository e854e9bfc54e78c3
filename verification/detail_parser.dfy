/** The extraction part of `_scrape_vehicle_detail`: one vehicle detail
    page to one record, used when the inventory page has no listing cards. */
module DetailParser {
  import opened Wrappers
  import opened Text
  import opened Dom
  import opened Urls
  import opened Extractors
  import opened Patterns
  import opened Images
  import opened Listings
  import opened Browser
  import CardParser

  const HeadingQueries: seq<Query> := [Tag("h1"), Tag("h2")]

  /** At most this many images are kept from a detail page. */
  const ImageLimit := 10

  /** The images of a detail page: logos dropped, first ten kept. */
  function PageImages(base: string, doc: Node): (r: seq<string>)
    ensures |r| == Min(ImageLimit, |ImageUrls(base, FindAll(doc, Tag("img")), true)|)
    ensures r == ImageUrls(base, FindAll(doc, Tag("img")), true)[..|r|]
    ensures |ImageUrls(base, FindAll(doc, Tag("img")), true)| <= ImageLimit ==>
      r == ImageUrls(base, FindAll(doc, Tag("img")), true)
  {
    Take(ImageUrls(base, FindAll(doc, Tag("img")), true), ImageLimit)
  }

  /** `_scrape_vehicle_detail(base, path)`. Every failure (navigation error,
      `<body>` not present within the wait, a price that makes `float('')`
      raise) is swallowed and yields None. On success the listing URL is
      always the resolved URL. */
  function ScrapeDetail(base: string, path: string, browse: string -> Visit): (r: Option<CarListing>)
    ensures var v := browse(Resolve(base, path));
      r.Some? <==> v.Loaded? && v.bodyPresent && CardParser.PriceOf(v.doc).Success?
    ensures r.Some? ==> r.value.listingUrl == Some(Resolve(base, path))
    ensures r.Some? ==> var doc := browse(Resolve(base, path)).doc;
      && r.value.vin == FindVin(GetText(doc))
      && r.value.stockNumber == FindStock(GetText(doc))
      && r.value.mileage == PageMileage(GetText(doc))
      && r.value.imageUrls == PageImages(base, doc)
      && |r.value.imageUrls| <= ImageLimit
      && r.value.price == CardParser.PriceOf(doc).value
      && r.value.year == CardParser.TitleOf(doc, HeadingQueries).year
      && r.value.make == CardParser.TitleOf(doc, HeadingQueries).make
      && r.value.model == CardParser.TitleOf(doc, HeadingQueries).model
      && r.value.exteriorColor.None? && r.value.transmission.None? && r.value.description.None?
  {
    var url := Resolve(base, path);
    match browse(url)
    case Failed(_) => None
    case Loaded(doc, bodyPresent) =>
      if !bodyPresent then None
      else
        var title := CardParser.TitleOf(doc, HeadingQueries);
        var text := GetText(doc);
        match CardParser.PriceOf(doc)
        case Failure(_) => None
        case Success(price) =>
          Some(Blank.(listingUrl := Some(url), year := title.year, make := title.make, model := title.model,
                      vin := FindVin(text), stockNumber := FindStock(text), price := price,
                      mileage := PageMileage(text), imageUrls := PageImages(base, doc)))
  }
}

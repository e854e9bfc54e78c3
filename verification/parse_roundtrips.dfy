/** End-to-end read-back through the parsers: a card or a detail page
    showing a title, price and mileage as the summary prints them parses
    to a record holding exactly those values. */
module ParseRoundTrips {
  import opened Wrappers
  import opened Text
  import opened Numerals
  import opened Dom
  import opened Urls
  import opened Browser
  import opened Listings
  import opened RoundTrips
  import CardParser
  import DetailParser

  /** A listing card whose title element reads "year make model...", whose
      price element reads a price as the summary prints it and whose
      mileage element reads a printed mileage parses to a record holding
      exactly those values, and that record is summarised under the same
      title. */
  lemma CardRoundTrip(card: Node, base: string, year: nat, make: string, model: seq<string>, p: nat, m: nat)
    requires 1000 <= year <= 9999
    requires IsWord(make) && model != [] && forall k :: 0 <= k < |model| ==> IsWord(model[k])
    requires FindFirstOf(card, CardParser.TitleQueries).Some?
    requires GetStrippedText(FindFirstOf(card, CardParser.TitleQueries).value)
          == Join([NatToString(year), make] + model, " ")
    requires Find(card, CardParser.PriceQuery).Some?
    requires GetStrippedText(Find(card, CardParser.PriceQuery).value) == PriceText(p)
    requires Find(card, CardParser.MileageQuery).Some?
    requires GetStrippedText(Find(card, CardParser.MileageQuery).value) == MileageText(m)
    ensures CardParser.ParseCard(card, base).Success?
    ensures CardParser.ParseCard(card, base).value.Some?
    ensures var car := CardParser.ParseCard(card, base).value.value;
      && car.year == Some(year as int) && car.make == Some(make) && car.model == Some(Join(model, " "))
      && car.price == Some(p) && car.mileage == Some(m)
      && Heading(car) == Join([NatToString(year), make] + model, " ")
  {
    PriceRoundTrip(p);
    MileageRoundTrip(m);
    TitleRoundTrip(year, make, model);
    var car := CardParser.ParseCard(card, base).value.value;
    HeadingRoundTrip(car, year, make, model);
  }

  /** A detail page that loads, shows `<body>` in time, has an `h1` (or
      `h2`) reading "year make model..." and a price element reading a
      printed price yields a record with that title and price, at the
      page's resolved URL, summarised under the same title. */
  lemma DetailRoundTrip(base: string, path: string, browse: string -> Visit,
                        year: nat, make: string, model: seq<string>, p: nat)
    requires 1000 <= year <= 9999
    requires IsWord(make) && model != [] && forall k :: 0 <= k < |model| ==> IsWord(model[k])
    requires browse(Resolve(base, path)).Loaded? && browse(Resolve(base, path)).bodyPresent
    requires FindFirstOf(browse(Resolve(base, path)).doc, DetailParser.HeadingQueries).Some?
    requires GetStrippedText(FindFirstOf(browse(Resolve(base, path)).doc, DetailParser.HeadingQueries).value)
          == Join([NatToString(year), make] + model, " ")
    requires Find(browse(Resolve(base, path)).doc, CardParser.PriceQuery).Some?
    requires GetStrippedText(Find(browse(Resolve(base, path)).doc, CardParser.PriceQuery).value) == PriceText(p)
    ensures DetailParser.ScrapeDetail(base, path, browse).Some?
    ensures var car := DetailParser.ScrapeDetail(base, path, browse).value;
      && car.year == Some(year as int) && car.make == Some(make) && car.model == Some(Join(model, " "))
      && car.price == Some(p) && car.listingUrl == Some(Resolve(base, path))
      && Heading(car) == Join([NatToString(year), make] + model, " ")
  {
    PriceRoundTrip(p);
    TitleRoundTrip(year, make, model);
    var car := DetailParser.ScrapeDetail(base, path, browse).value;
    HeadingRoundTrip(car, year, make, model);
  }
}

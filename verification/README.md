# car-scraper-api extraction core, modelled in Dafny

This project models the pure part of the `CarDealerScraper` in `scraper.py`, plus the `CarListing` and `ScraperResponse` models of `models.py`. Facts about it are proved with the Dafny verifier.

- **Extractors.** Reading numbers, prices and titles: `_extract_number`, `_extract_price` and `_parse_vehicle_title`.
- **Listing location.** Finding the listings on an inventory page. Seven `div` selectors are tried in order. When none matches, the scraper falls back to de-duplicated vehicle links, at most 50 of them.
- **Card parsing.** `_parse_vehicle_card`.
- **Detail pages.** The extraction part of `_scrape_vehicle_detail`: title, the VIN, stock and mileage regular expressions, price and images.
- **Orchestration.** `scrape_inventory`, which collects cars and error messages into a response.
- **Rendering.** `CarListing.to_llm_summary`, `model_dump(exclude_none=True)` and `ScraperResponse.to_llm_format`.

An HTML document is an abstract tree (`Dom.Node`). `find` and `find_all` return descendants in document order.

The browser is a `Browser.Session` parameter:
- the error raised when starting the driver, if any;
- for each URL, either the loaded page and whether `<body>` appeared in time, or the navigation error.

The order that `list(set(...))` gives the links is also a parameter, `linkOrder`. It is constrained to list each link exactly once. `Locator.Distinct` shows that such an order exists.

The three regular expressions of the detail page are written out as leftmost matchers over the page text (`Patterns`). Each one ignores case. In the VIN and stock patterns, the separator class and the captured class share no character, so the separators and the capture are fixed once the label is. In the mileage pattern, `\d+` and `\d*` overlap. But any match shorter than the greedy one, from the same start, leaves `\s*miles?` facing a digit or a comma and fails, so backtracking cannot change a match there either. The matchers are:
- `VIN[:\s]+([A-HJ-NPR-Z0-9]{17})`
- `Stock[#\s:]+([A-Z0-9-]+)`
- `(\d+,?\d*)\s*miles?`

Module layout:
- generic helpers: `Wrappers`, `Scan`, `Collect`;
- Python string and number semantics: `Text`, `Numerals`;
- the document and URLs: `Dom`, `Urls`, `Images`;
- the three extractors: `Extractors`;
- regular expressions: `Patterns`;
- the models: `Listings`, `Responses`;
- the scraper's steps: `Locator`, `CardParser`, `DetailParser`, `Browser`, `Scraper`;
- read-back properties: `RoundTrips`, and through the card and detail parsers `ParseRoundTrips`.

Behaviours of the code worth knowing:
- a card never yields `None`, because `image_urls` is always assigned;
- a price text whose first run of digits and commas has no digit makes `float('')` raise. That discards the card and adds a "Failed to parse vehicle" error. On a detail page the same failure loses the whole page;
- the fallback search for a year word happens only when the title has at least three words;
- no year range check is applied;
- the mileage class query is `mileage|miles`, with no other words;
- the VIN and stock patterns need at least one separator after the label;
- a detail page whose `<body>` wait expires yields no car, while the inventory page is parsed anyway;
- the link order is that of a Python `set`.

## Model

| member | source | states |
|---|---|---|
| Extractors.ExtractNumber | scraper.py:62-67 | None exactly when the text has no digit, the empty text included. Otherwise the value is the first maximal digit run of the text with its commas deleted. |
| Extractors.ExtractPrice | scraper.py:69-76 | No digit and no comma gives None. Otherwise the first run of digits and commas, commas removed, is the price. A run of commas only raises the `float('')` error, with its exact message. |
| Extractors.PriceFailsOnBareComma | scraper.py:73-75 | "Call, for price" makes the price conversion raise: the comma is captured and leaves an empty string. |
| Extractors.ParseTitle | scraper.py:78-103 | With three or more words and a four-digit first word, that word is the year, the second the make and the rest the model. Otherwise the first four-digit word is the year, the word before it the make, and the words after it the model (absent when the year is last). With no four-digit word, or fewer than three words, nothing is set. |
| Text.SplitJoin | scraper.py:85 | `split()` undoes a single-space join of whitespace-free tokens. |
| Text.Strip | scraper.py:85 | `strip()` leaves no whitespace at either end. The result is a contiguous part of the input, and everything before and after it is whitespace. |
| Text.StripTrimmed | scraper.py:85 | `strip()` changes nothing on a text without surrounding whitespace. |
| Numerals.ValueOfString | models.py:32 | `int(str(n)) == n`. |
| Numerals.StringOfValue | models.py:32 | `str(int(s)) == s` for a digit string without a leading zero. |
| Numerals.UngroupDigits | models.py:44 | Deleting the commas of a thousands-grouped numeral gives back its digits. |
| Numerals.GroupDigitsChars | models.py:42-44 | A grouped numeral is digits and commas only, and starts and ends with a digit. |
| Numerals.GroupDigitsCommas | models.py:44 | In a grouped numeral a comma stands exactly at every fourth position counted from the end, so commas split off groups of three digits. |
| Urls.Resolve | scraper.py:237-238 | An href starting with "http" is kept. Any other href follows the base with its trailing slashes removed, then one slash, then the href with its leading slashes removed. |
| Urls.ResolveSingleSlash | scraper.py:238 | Exactly one slash separates base and relative href. |
| Urls.ResolveIgnoresExtraSlashes | scraper.py:247 | Extra slashes at the end of the base or at the start of the href do not change the joined URL. |
| Urls.ResolveIdempotent | scraper.py:256 | With an "http" base, resolving an already resolved URL changes nothing. |
| Urls.InventoryUrl | scraper.py:123 | The inventory page is the base URL, without its trailing slashes, followed by "/inventory". |
| Urls.InventoryUrlIsResolved | scraper.py:123 | The inventory URL is built by the same joining rule the scraper applies to links, with or without a leading slash. |
| Dom.Find | scraper.py:216-217 | `find` returns the first matching descendant in document order, and None exactly when no descendant matches. |
| Dom.FindFirstOf | scraper.py:216-217 | `find(a) or find(b) or ...` returns the result of the first query that finds anything, and None when none does. |
| Dom.FindIsFirstOfFindAll | scraper.py:224 | `find` is the first element of `find_all`. |
| Dom.SelectAppend | scraper.py:160 | `find_all` over consecutive subtrees is the concatenation of the parts, in order. |
| Dom.ConcatStripped | scraper.py:219 | `get_text(strip=True)` never begins or ends with whitespace. |
| Images.ImageUrls | scraper.py:241-249 | At most one URL per `img`, and none ends in ".svg" or ".gif". |
| Images.ImageUrlsComplete | scraper.py:243-248 | Every image whose `src` (or `data-src`) is kept appears, resolved against the base. |
| Images.ImageUrlsSound | scraper.py:243-248 | Every listed URL is the resolved source of a kept image. |
| Images.ImageUrlsAppend | scraper.py:243-248 | Images keep document order and duplicates. |
| Images.LogoFilterDropsOnly | scraper.py:300 | The detail page's "logo" filter only removes images: the filtered list is no longer, and every URL in it is also in the unfiltered list. |
| Images.ResolveKeepsSuffixOut | scraper.py:245-247 | Resolving a source cannot make it end in ".svg" or ".gif". |
| Locator.Locate | scraper.py:148-175 | The listings are the elements of the first selector that matches anything. All of them are `div`s, and every earlier selector matched nothing. Only when no selector matches are links used. The links have no duplicates, all are vehicle links, and they are the first min(50, n) of the n distinct links, in the order `list(set(...))` gave them. |
| Locator.Hrefs | scraper.py:171 | Every anchor with a non-empty href contributes it, and no empty href is collected. Every collected href is the `href` of one of the anchors. |
| Locator.Distinct | scraper.py:171 | Some order lists every distinct link exactly once. |
| Locator.FirstHit | scraper.py:159-164 | The chosen selector matches something, and every earlier one matches nothing. |
| Locator.SelectorPriority | scraper.py:159-164 | If any selector matches, cards are used, and they come from that selector or an earlier one. |
| Locator.FewLinksAllVisited | scraper.py:175 | With at most 50 distinct vehicle links, every one is visited. |
| CardParser.CardRecord | scraper.py:211-251 | A card always yields a record. It holds the title fields, price, mileage from the mileage element, resolved link and images. VIN, stock, colour, transmission, description and features stay unset. |
| CardParser.ParseCard | scraper.py:211-251 | Parsing a card raises exactly when its price conversion raises, with the `float('')` message. Otherwise it yields the card's record. |
| DetailParser.PageImages | scraper.py:297-304 | At most 10 images, the first of the logo-filtered list. All are kept when there are at most 10. |
| DetailParser.ScrapeDetail | scraper.py:253-310 | A detail page yields a car exactly when it loads, `<body>` appears in time, and the price does not raise. The car carries the resolved URL, the leftmost VIN, stock and mileage matches in the page text, the `h1`/`h2` title fields, the price and the first 10 non-logo images. |
| Patterns.FindVin | scraper.py:277-279 | The VIN is that of the leftmost match. It has 17 characters from the VIN class, and is None exactly when nothing matches. |
| Patterns.FindStock | scraper.py:282-284 | The stock number is that of the leftmost match. It is a non-empty run of stock characters, and None exactly when nothing matches. |
| Patterns.FindMileage | scraper.py:292-294 | The mileage group is that of the leftmost match and starts with a digit. It is None exactly when nothing matches. |
| Patterns.PageMileage | scraper.py:292-294 | A mileage exists exactly when the mileage pattern matches. |
| Patterns.MileageAtBlocked | scraper.py:292 | The pattern cannot match from a digit group that is followed by two commas. |
| Patterns.LabelledVinFound | scraper.py:277-279 | The text "VIN: " followed by a valid VIN yields that VIN. |
| Patterns.LabelledStockFound | scraper.py:282-284 | The text "Stock# " followed by a stock number yields that whole stock number. |
| Listings.HeadingParts | models.py:30-36 | The summary's head parts are the truthy year, make and model, in that order. A truthy make comes right after the year, or first when the year is not truthy. |
| Listings.Heading | models.py:38 | With none of year, make and model truthy, the head is "Unknown Vehicle". Otherwise it is the truthy parts joined by single spaces. |
| Listings.DetailItems | models.py:40-49 | The detail items are Price, Mileage, Color and Transmission, in that order. Each is present exactly when its value is truthy, and each has its fixed label. |
| Listings.DetailsSuffix | models.py:50-51 | " - " and the items are appended exactly when some item is present. The items are then joined by ", ". |
| Listings.DescriptionSuffix | models.py:53-54 | A truthy description adds the description label and at most its first 200 characters. Nothing else adds the label. |
| Listings.Summary | models.py:28-56 | The summary starts with the head and ends with the description part. Between them stands exactly the details part, " - " and the price, mileage, colour and transmission items, and nothing else. |
| Listings.SummaryOmitsZeroes | models.py:41-44 | A zero price or mileage is treated like a missing one. |
| Listings.LongDescriptionCut | models.py:54 | A description longer than 200 characters is cut to its first 200. |
| Listings.KeepPresent | models.py:76 | An entry is in the dump exactly when its field is non-null. |
| Listings.KeepPresentAppend | models.py:76 | Dropping null fields keeps the field order: filtering a concatenation concatenates the filtered parts. |
| Listings.Dump | models.py:6-25 | `model_dump(exclude_none=True)` keeps exactly the non-null fields. `features` and `image_urls` are always present. |
| Responses.Respond | scraper.py:204-209 | `success` is `len(cars) > 0` and `total_cars` is `len(cars)`. |
| Responses.ToLlmFormat | models.py:68-81 | There is one entry per car, in order, each with that car's summary and dump. The errors are None exactly when the list is empty. The timestamp is copied, and the sentence gives the car count. |
| Responses.CountMatchesEntries | models.py:71 | The count in the summary sentence reads back as the number of vehicle entries. |
| Collect.SplitComplete | scraper.py:184-193 | In a list of outcomes, every success lands among the values and every failure among the errors. |
| Collect.NoErrors | scraper.py:184-193 | No errors are collected exactly when every outcome succeeded. |
| Scraper.CardOutcome | scraper.py:187-193 | A card whose parse raises gives "Failed to parse vehicle: " and the `float('')` message. Any other card gives its car. |
| Scraper.ParseCards | scraper.py:184-193 | Every card gives exactly one car or one error, and every error is the card-parse message. |
| Scraper.NoErrorsIffAllParse | scraper.py:184-193 | The card loop reports no error exactly when every card parses. |
| Scraper.CardsAccounted | scraper.py:184-193 | A card that parses contributes its car. One that raises contributes the error message. |
| Scraper.ParseCardsAppend | scraper.py:186 | Cards are processed one by one, in order. |
| Scraper.ScrapeDetails | scraper.py:174-179 | At most one car per link, and each car carries the resolved URL of one of the links. |
| Scraper.AllPagesKept | scraper.py:174-179 | Every link yields a car exactly when every detail page loads and parses. |
| Scraper.LoadedPagesKept | scraper.py:177-179 | Every detail page that yields a car contributes it. |
| Scraper.ScrapeDetailsAppend | scraper.py:175 | Links are visited one by one, in order. |
| Scraper.ScrapeInventory | scraper.py:105-209 | The response is always well formed. A driver or navigation failure gives no cars and a single "Scraping error: " message. In card mode, the cars and errors are exactly those the card loop collects, and together they equal the number of cards. In link mode there are no errors, at most 50 cars, and the cars are those of the visited links. |
| Scraper.LinkModeUrls | scraper.py:167-183 | In link mode every car's URL is a vehicle link of the inventory page, resolved against the dealership URL. |
| RoundTrips.MileageRoundTrip | models.py:44 | `_extract_number` reads back the mileage the summary prints with thousands separators. |
| RoundTrips.PriceRoundTrip | models.py:42 | `_extract_price` reads back the whole-dollar price the summary prints. |
| RoundTrips.GroupedRoundTrip | scraper.py:62-67 | `_extract_number` reads back any number printed with thousands separators. |
| RoundTrips.TitleRoundTrip | scraper.py:85-91 | "year make model..." with a four-digit year is split back into those parts. |
| RoundTrips.HeadingRoundTrip | models.py:30-38 | A record built from such a title is summarised under that same title. |
| RoundTrips.PageMileageRoundTrip | scraper.py:292-294 | The detail page reads back a summary-printed mileage below one million. |
| RoundTrips.TwoSeparatorsMisread | scraper.py:292 | The pattern allows one comma, so for a numeral with two commas it captures only the last two groups: "1,234,567 miles" is read as 234567. |
| ParseRoundTrips.CardRoundTrip | scraper.py:211-251 | A card whose title, price and mileage elements read "year make model...", a printed price and a printed mileage parses, and its record holds that year, make, model, price and mileage under the same heading. |
| ParseRoundTrips.DetailRoundTrip | scraper.py:253-310 | A detail page that loads, shows `<body>`, and whose `h1`/`h2` and price element read "year make model..." and a printed price yields a car at its resolved URL with that year, make, model and price under the same heading. |
| RoundTrips.ShortNumeral | models.py:44 | A numeral has at most `k` digits exactly when the number is below 10^k. |

## Left out

- Selenium itself is a parameter: `Browser.Session`. That covers driver options, binary discovery, `_init_driver`, `_close_driver`, waiting and the page source. Its real behaviour is outside any model.
- Logging is left out: it has no effect on results.
- `datetime.now()` is left out. The timestamp is the `scrapedAt` parameter.
- The FastAPI application, the helper scripts and the HTML-inspection script are not part of this model.
- BeautifulSoup's HTML parsing is not modelled. The document is given as a tree. `get_text()` concatenates the text nodes only; comments, scripts and entity decoding are not modelled.
- Regular expressions are written as matchers only for the patterns the scraper uses. Digits, case folding and letters are ASCII only; Python's `\d` and `re.IGNORECASE` also accept other Unicode digits and letters.
- Extractors.ExtractPrice: returns whole dollars, not a Python `float`. Float rounding of very large prices and `.2f` formatting of cents are not modelled; the price text always reads ".00".
- Extractors.ParseTitle: digits are ASCII only. Python's `isdigit()` also accepts other digits, such as superscripts, that `int()` then rejects. For a title like "²⁰²⁰ Honda Civic" the source raises: the card becomes a "Failed to parse vehicle" error, or the detail page yields no car. The model instead treats such a word as a non-year word and keeps the car.
- Extractors.ExtractNumber: Python's limit on the length of integer strings is not modelled (numbers are unbounded).
- Scraper.ScrapeInventory: the "Failed to scrape <link>" handler in the link loop cannot fire, because `_scrape_vehicle_detail` catches every exception. It is therefore not modelled.
- Scraper.ScrapeInventory: exceptions the code cannot raise for a well-formed tree are not modelled, such as BeautifulSoup failures. The only parse exception modelled is `float('')`; see Extractors.ParseTitle for `int()` on non-ASCII digits.
- The order of `list(set(...))` is an argument, not Python's hash order.
- RoundTrips.PageMileageRoundTrip: stated only below one million. At one million and above the printed numeral has two commas, and the pattern misreads it, as RoundTrips.TwoSeparatorsMisread shows.
- CarListing fields that no code path fills are kept in the record but never set: colours, transmission, fuel type, engine, drivetrain, body style, description and features.

/** `ScraperResponse` and its LLM-oriented rendering `to_llm_format`. */
module Responses {
  import opened Wrappers
  import opened Numerals
  import opened Listings

  /** `scrapedAt` is the ISO timestamp the caller supplies (the source takes
      `datetime.now()`). */
  datatype ScraperResponse = ScraperResponse(
    success: bool,
    totalCars: int,
    cars: seq<CarListing>,
    scrapedAt: string,
    errors: seq<string>)

  /** What the scraper always builds: `success=len(cars) > 0` and
      `total_cars=len(cars)`. */
  predicate WellFormed(r: ScraperResponse) {
    r.success == (|r.cars| > 0) && r.totalCars == |r.cars|
  }

  /** The response the scraper returns for the collected cars and errors. */
  function Respond(cars: seq<CarListing>, errors: seq<string>, scrapedAt: string): (r: ScraperResponse)
    ensures WellFormed(r)
    ensures r.cars == cars && r.errors == errors && r.scrapedAt == scrapedAt
    ensures r.success <==> cars != []
  {
    ScraperResponse(|cars| > 0, |cars|, cars, scrapedAt, errors)
  }

  datatype VehicleEntry = VehicleEntry(summary: string, fullDetails: seq<(string, FieldValue)>)

  datatype LlmFormat = LlmFormat(
    summary: string,
    scrapedAt: string,
    vehicles: seq<VehicleEntry>,
    errors: Option<seq<string>>)

  function CountSentence(n: int): string {
    "Found " + IntToString(n) + " vehicles at the dealership"
  }

  function Entry(car: CarListing): VehicleEntry {
    VehicleEntry(Summary(car), Dump(car))
  }

  /** `to_llm_format`: one entry per car, in order; an empty error list
      becomes `None`. */
  function ToLlmFormat(resp: ScraperResponse): (f: LlmFormat)
    ensures |f.vehicles| == |resp.cars|
    ensures forall i :: 0 <= i < |resp.cars| ==>
      f.vehicles[i].summary == Summary(resp.cars[i]) && f.vehicles[i].fullDetails == Dump(resp.cars[i])
    ensures f.errors.None? <==> resp.errors == []
    ensures f.errors.Some? ==> f.errors.value == resp.errors
    ensures f.scrapedAt == resp.scrapedAt
    ensures WellFormed(resp) ==> f.summary == CountSentence(|resp.cars|)
  {
    LlmFormat(
      CountSentence(resp.totalCars),
      resp.scrapedAt,
      seq(|resp.cars|, i requires 0 <= i < |resp.cars| => Entry(resp.cars[i])),
      if resp.errors == [] then None else Some(resp.errors))
  }

  /** The count in the summary sentence reads back as the number of vehicle
      entries, for any well-formed response. */
  lemma CountMatchesEntries(resp: ScraperResponse)
    requires WellFormed(resp)
    ensures var f := ToLlmFormat(resp);
      f.summary == "Found " + NatToString(|f.vehicles|) + " vehicles at the dealership"
      && DigitsValue(NatToString(|f.vehicles|)) == |f.vehicles|
  {
    ValueOfString(|resp.cars|);
  }
}

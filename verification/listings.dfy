/** The vehicle record (`CarListing` of models.py), its one-line LLM
    summary (`to_llm_summary`) and its JSON dump without null fields
    (`model_dump(exclude_none=True)`). Prices are whole dollars. */
module Listings {
  import opened Wrappers
  import opened Text
  import opened Numerals

  datatype CarListing = CarListing(
    make: Option<string>,
    model: Option<string>,
    year: Option<int>,
    price: Option<int>,
    mileage: Option<int>,
    vin: Option<string>,
    stockNumber: Option<string>,
    exteriorColor: Option<string>,
    interiorColor: Option<string>,
    transmission: Option<string>,
    fuelType: Option<string>,
    engine: Option<string>,
    drivetrain: Option<string>,
    bodyStyle: Option<string>,
    description: Option<string>,
    features: seq<string>,
    imageUrls: seq<string>,
    listingUrl: Option<string>)

  /** `CarListing()` with every field at its default. */
  const Blank := CarListing(None, None, None, None, None, None, None, None, None,
                            None, None, None, None, None, None, [], [], None)

  /** Python truthiness of an optional number: present and non-zero. */
  predicate ShownInt(o: Option<int>) {
    o.Some? && o.value != 0
  }

  /** Python truthiness of an optional string: present and non-empty. */
  predicate ShownStr(o: Option<string>) {
    o.Some? && o.value != ""
  }

  const UnknownVehicle := "Unknown Vehicle"
  const DescriptionLimit := 200
  const DescriptionLabel := " | Description: "

  /** The truthy ones among year, make and model, in that order. */
  function HeadingParts(car: CarListing): (parts: seq<string>)
    ensures |parts| == (if ShownInt(car.year) then 1 else 0) + (if ShownStr(car.make) then 1 else 0)
                       + (if ShownStr(car.model) then 1 else 0)
    ensures ShownInt(car.year) ==> parts[0] == IntToString(car.year.value)
    ensures ShownStr(car.make) ==> parts[if ShownInt(car.year) then 1 else 0] == car.make.value
    ensures ShownStr(car.model) ==> parts[|parts| - 1] == car.model.value
  {
    (if ShownInt(car.year) then [IntToString(car.year.value)] else [])
    + (if ShownStr(car.make) then [car.make.value] else [])
    + (if ShownStr(car.model) then [car.model.value] else [])
  }

  /** The head of the summary: the truthy parts joined by spaces, or
      "Unknown Vehicle" when there are none. */
  function Heading(car: CarListing): (r: string)
    ensures !ShownInt(car.year) && !ShownStr(car.make) && !ShownStr(car.model) ==> r == UnknownVehicle
    ensures ShownInt(car.year) && ShownStr(car.make) && ShownStr(car.model) ==>
      r == IntToString(car.year.value) + " " + car.make.value + " " + car.model.value
    ensures HeadingParts(car) != [] ==> r == Join(HeadingParts(car), " ")
  {
    var parts := HeadingParts(car);
    if parts == [] then UnknownVehicle
    else
      JoinThree(parts, " ");
      Join(parts, " ")
  }

  /** `f"${price:,.2f}"` for a whole number of dollars. */
  function PriceText(p: int): string {
    "$" + Grouped(p) + ".00"
  }

  function MileageText(m: int): string {
    Grouped(m) + " miles"
  }

  /** The detail items in their fixed order Price, Mileage, Color,
      Transmission, each present only when its value is truthy. */
  function DetailItems(car: CarListing): (items: seq<string>)
    ensures var p := if ShownInt(car.price) then 1 else 0;
            var m := if ShownInt(car.mileage) then 1 else 0;
            var c := if ShownStr(car.exteriorColor) then 1 else 0;
            var t := if ShownStr(car.transmission) then 1 else 0;
      && |items| == p + m + c + t
      && (p == 1 ==> items[0] == "Price: " + PriceText(car.price.value))
      && (m == 1 ==> items[p] == "Mileage: " + MileageText(car.mileage.value))
      && (c == 1 ==> items[p + m] == "Color: " + car.exteriorColor.value)
      && (t == 1 ==> items[p + m + c] == "Transmission: " + car.transmission.value)
  {
    (if ShownInt(car.price) then ["Price: " + PriceText(car.price.value)] else [])
    + (if ShownInt(car.mileage) then ["Mileage: " + MileageText(car.mileage.value)] else [])
    + (if ShownStr(car.exteriorColor) then ["Color: " + car.exteriorColor.value] else [])
    + (if ShownStr(car.transmission) then ["Transmission: " + car.transmission.value] else [])
  }

  /** " - " followed by the comma-separated items, or nothing when there are none. */
  function DetailsSuffix(car: CarListing): (r: string)
    ensures r == "" <==> !ShownInt(car.price) && !ShownInt(car.mileage)
                          && !ShownStr(car.exteriorColor) && !ShownStr(car.transmission)
    ensures r != "" ==> StartsWith(r, " - ")
    ensures r != "" ==> r == " - " + Join(DetailItems(car), ", ")
  {
    var items := DetailItems(car);
    if items == [] then "" else " - " + Join(items, ", ")
  }

  /** " | Description: " followed by at most the first 200 characters of a
      truthy description; nothing otherwise. */
  function DescriptionSuffix(car: CarListing): (r: string)
    ensures r == "" <==> !ShownStr(car.description)
    ensures ShownStr(car.description) ==>
      var d := car.description.value;
      && StartsWith(r, DescriptionLabel)
      && |r| == |DescriptionLabel| + Min(DescriptionLimit, |d|)
      && r[|DescriptionLabel|..] == d[..Min(DescriptionLimit, |d|)]
  {
    if ShownStr(car.description) then DescriptionLabel + Take(car.description.value, DescriptionLimit) else ""
  }

  /** `to_llm_summary`. */
  function Summary(car: CarListing): (r: string)
    ensures StartsWith(r, Heading(car))
    ensures EndsWith(r, DescriptionSuffix(car))
    ensures |r| == |Heading(car)| + |DetailsSuffix(car)| + |DescriptionSuffix(car)|
    ensures r[|Heading(car)|..|Heading(car)| + |DetailsSuffix(car)|] == DetailsSuffix(car)
  {
    Heading(car) + DetailsSuffix(car) + DescriptionSuffix(car)
  }

  /** A zero price or mileage is falsy, so it is left out exactly like a
      missing one. */
  lemma SummaryOmitsZeroes(car: CarListing)
    ensures Summary(car.(price := Some(0))) == Summary(car.(price := None))
    ensures Summary(car.(mileage := Some(0))) == Summary(car.(mileage := None))
  {
    var a, b := car.(price := Some(0)), car.(price := None);
    assert HeadingParts(a) == HeadingParts(b);
    assert DetailItems(a) == DetailItems(b);
    assert DescriptionSuffix(a) == DescriptionSuffix(b);
    var c, d := car.(mileage := Some(0)), car.(mileage := None);
    assert HeadingParts(c) == HeadingParts(d);
    assert DetailItems(c) == DetailItems(d);
    assert DescriptionSuffix(c) == DescriptionSuffix(d);
  }

  /** A description is cut to its first 200 characters. */
  lemma {:induction false} LongDescriptionCut(car: CarListing)
    requires car.description.Some? && |car.description.value| > DescriptionLimit
    ensures EndsWith(Summary(car), DescriptionLabel + car.description.value[..DescriptionLimit])
  {
    var d := car.description.value;
    assert DescriptionSuffix(car) == DescriptionLabel + d[..DescriptionLimit];
  }

  /** One entry of `model_dump(exclude_none=True)`. */
  datatype FieldValue =
    | StrValue(s: string)
    | IntValue(i: int)
    | FloatValue(dollars: int)
    | ListValue(items: seq<string>)

  function Str(o: Option<string>): Option<FieldValue> {
    if o.Some? then Some(StrValue(o.value)) else None
  }

  function Int(o: Option<int>): Option<FieldValue> {
    if o.Some? then Some(IntValue(o.value)) else None
  }

  /** Every field of the record with its JSON name, in declaration order;
      None for a null field. */
  function Fields(car: CarListing): seq<(string, Option<FieldValue>)> {
    [ ("make", Str(car.make)), ("model", Str(car.model)), ("year", Int(car.year)),
      ("price", if car.price.Some? then Some(FloatValue(car.price.value)) else None),
      ("mileage", Int(car.mileage)), ("vin", Str(car.vin)), ("stock_number", Str(car.stockNumber)),
      ("exterior_color", Str(car.exteriorColor)), ("interior_color", Str(car.interiorColor)),
      ("transmission", Str(car.transmission)), ("fuel_type", Str(car.fuelType)),
      ("engine", Str(car.engine)), ("drivetrain", Str(car.drivetrain)),
      ("body_style", Str(car.bodyStyle)), ("description", Str(car.description)),
      ("features", Some(ListValue(car.features))), ("image_urls", Some(ListValue(car.imageUrls))),
      ("listing_url", Str(car.listingUrl)) ]
  }

  /** The non-null entries, in order. */
  function KeepPresent(fields: seq<(string, Option<FieldValue>)>): (d: seq<(string, FieldValue)>)
    ensures |d| <= |fields|
    ensures forall k, v :: (k, v) in d <==> (k, Some(v)) in fields
  {
    if fields == [] then []
    else
      var rest := KeepPresent(fields[1..]);
      assert forall x :: x in fields <==> x == fields[0] || x in fields[1..];
      match fields[0].1
      case Some(v) => [(fields[0].0, v)] + rest
      case None => rest
  }

  /** Dropping null entries keeps the order of the rest: the entries of
      consecutive parts of the field list come out consecutively. */
  lemma {:induction false} KeepPresentAppend(a: seq<(string, Option<FieldValue>)>, b: seq<(string, Option<FieldValue>)>)
    ensures KeepPresent(a + b) == KeepPresent(a) + KeepPresent(b)
    decreases |a|
  {
    if a == [] {
      assert a + b == b;
    } else {
      assert (a + b)[0] == a[0];
      assert (a + b)[1..] == a[1..] + b;
      KeepPresentAppend(a[1..], b);
    }
  }

  /** `model_dump(exclude_none=True)`: the non-null fields in declaration
      order; the two lists are never null, so they are always there. */
  function Dump(car: CarListing): (d: seq<(string, FieldValue)>)
    ensures ("features", ListValue(car.features)) in d
    ensures ("image_urls", ListValue(car.imageUrls)) in d
    ensures forall k, v :: (k, v) in d <==> (k, Some(v)) in Fields(car)
  {
    var fs := Fields(car);
    assert fs[15] == ("features", Some(ListValue(car.features)));
    assert fs[16] == ("image_urls", Some(ListValue(car.imageUrls)));
    KeepPresent(fs)
  }
}

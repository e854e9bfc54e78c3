/** Hand-written leftmost matchers for the three regular expressions the
    detail-page parser runs over the page text, all compiled with
    `re.IGNORECASE`:
      `VIN[:\s]+([A-HJ-NPR-Z0-9]{17})`,
      `Stock[#\s:]+([A-Z0-9-]+)`,
      `(\d+,?\d*)\s*miles?`.
    Each `...At(s, i)` gives the captured group when a match starts at `i`.
    In the VIN and stock patterns the separator class and the captured
    class are disjoint, so the split between them is fixed. In the mileage
    pattern `\d+` and `\d*` overlap, but any match shorter than the greedy
    one from the same start leaves `\s*miles?` facing a digit or a comma,
    where it fails. So backtracking never finds a second way to match from
    the same start, and a greedy scan decides each start. */
module Patterns {
  import opened Wrappers
  import opened Scan
  import opened Text
  import opened Numerals
  import Extractors

  /** `s[i..]` starts with `word` (given in lower case), ignoring ASCII case. */
  predicate WordAt(s: string, i: nat, word: string) {
    i + |word| <= |s| && ToLower(s[i..i + |word|]) == word
  }

  predicate IsAsciiLetter(c: char) {
    'a' <= Lower(c) <= 'z'
  }

  predicate IsVinSeparator(c: char) {
    c == ':' || IsSpace(c)
  }

  /** `[A-HJ-NPR-Z0-9]` ignoring case: digits and letters other than I, O, Q. */
  predicate IsVinChar(c: char) {
    IsDigit(c) || (IsAsciiLetter(c) && Lower(c) != 'i' && Lower(c) != 'o' && Lower(c) != 'q')
  }

  predicate IsStockSeparator(c: char) {
    c == '#' || c == ':' || IsSpace(c)
  }

  /** `[A-Z0-9-]` ignoring case. */
  predicate IsStockChar(c: char) {
    IsDigit(c) || IsAsciiLetter(c) || c == '-'
  }

  const VinLength := 17

  function VinAt(s: string, i: nat): (r: Option<string>)
    ensures r.Some? ==> WordAt(s, i, "vin") && i + 3 < |s| && IsVinSeparator(s[i + 3])
    ensures r.Some? ==> |r.value| == VinLength && forall k :: 0 <= k < |r.value| ==> IsVinChar(r.value[k])
  {
    if !WordAt(s, i, "vin") then None
    else
      var j := Span(s, i + 3, IsVinSeparator);
      if j == i + 3 || Span(s, j, IsVinChar) < j + VinLength then None
      else Some(s[j..j + VinLength])
  }

  function StockAt(s: string, i: nat): (r: Option<string>)
    ensures r.Some? ==> WordAt(s, i, "stock") && i + 5 < |s| && IsStockSeparator(s[i + 5])
    ensures r.Some? ==> r.value != [] && forall k :: 0 <= k < |r.value| ==> IsStockChar(r.value[k])
  {
    if !WordAt(s, i, "stock") then None
    else
      var j := Span(s, i + 5, IsStockSeparator);
      var k := Span(s, j, IsStockChar);
      if j == i + 5 || k == j then None else Some(s[j..k])
  }

  function MileageAt(s: string, i: nat): (r: Option<string>)
    ensures r.Some? ==> r.value != [] && IsDigit(r.value[0])
    ensures r.Some? ==> forall k :: 0 <= k < |r.value| ==> IsDigitOrComma(r.value[k])
  {
    if i >= |s| || !IsDigit(s[i]) then None
    else
      var j := Span(s, i, IsDigit);
      var k := if j < |s| && s[j] == ',' then Span(s, j + 1, IsDigit) else j;
      var m := Span(s, k, IsSpace);
      if WordAt(s, m, "mile") then Some(s[i..k]) else None
  }

  /** The VIN captured by the leftmost match in `text`, if any. */
  function FindVin(text: string): (r: Option<string>)
    ensures r.None? <==> forall i :: 0 <= i <= |text| ==> VinAt(text, i).None?
    ensures forall i :: (0 <= i <= |text| && VinAt(text, i).Some?
                         && forall k :: 0 <= k < i ==> VinAt(text, k).None?) ==> r == VinAt(text, i)
    ensures r.Some? ==> |r.value| == VinLength && forall k :: 0 <= k < VinLength ==> IsVinChar(r.value[k])
  {
    var at := (i: nat) => VinAt(text, i);
    assert forall i: nat :: at(i) == VinAt(text, i);
    Search(|text|, at)
  }

  /** The stock number captured by the leftmost match in `text`, if any. */
  function FindStock(text: string): (r: Option<string>)
    ensures r.None? <==> forall i :: 0 <= i <= |text| ==> StockAt(text, i).None?
    ensures forall i :: (0 <= i <= |text| && StockAt(text, i).Some?
                         && forall k :: 0 <= k < i ==> StockAt(text, k).None?) ==> r == StockAt(text, i)
    ensures r.Some? ==> r.value != [] && forall k :: 0 <= k < |r.value| ==> IsStockChar(r.value[k])
  {
    var at := (i: nat) => StockAt(text, i);
    assert forall i: nat :: at(i) == StockAt(text, i);
    Search(|text|, at)
  }

  /** A match of the mileage pattern with no comma in the number. */
  lemma MileageAtPlain(s: string, i: nat, j: nat)
    requires i < |s| && IsDigit(s[i]) && Span(s, i, IsDigit) == j
    requires j + 1 < |s| && s[j] == ' ' && Span(s, j, IsSpace) == j + 1 && WordAt(s, j + 1, "mile")
    ensures MileageAt(s, i) == Some(s[i..j])
  {
  }

  /** A match of the mileage pattern with one comma in the number. */
  lemma MileageAtGrouped(s: string, i: nat, j: nat, k: nat)
    requires i < |s| && IsDigit(s[i]) && Span(s, i, IsDigit) == j
    requires j < |s| && s[j] == ',' && Span(s, j + 1, IsDigit) == k
    requires k < |s| && Span(s, k, IsSpace) == k + 1 && WordAt(s, k + 1, "mile")
    ensures MileageAt(s, i) == Some(s[i..k])
  {
  }

  /** A number with a second comma is no match from its first group. */
  lemma MileageAtBlocked(s: string, i: nat, j: nat, k: nat)
    requires i < |s| && IsDigit(s[i]) && Span(s, i, IsDigit) == j
    requires j < |s| && s[j] == ',' && Span(s, j + 1, IsDigit) == k
    requires k < |s| && s[k] == ','
    ensures MileageAt(s, i).None?
  {
    assert Span(s, k, IsSpace) == k;
    if k + 4 <= |s| {
      assert ToLower(s[k..k + 4])[0] == ',';
    }
  }

  /** The mileage numeral captured by the leftmost match in `text`, if any. */
  function FindMileage(text: string): (r: Option<string>)
    ensures r.None? <==> forall i :: 0 <= i <= |text| ==> MileageAt(text, i).None?
    ensures forall i :: (0 <= i <= |text| && MileageAt(text, i).Some?
                         && forall k :: 0 <= k < i ==> MileageAt(text, k).None?) ==> r == MileageAt(text, i)
    ensures r.Some? ==> r.value != [] && IsDigit(r.value[0])
  {
    var at := (i: nat) => MileageAt(text, i);
    assert forall i: nat :: at(i) == MileageAt(text, i);
    Search(|text|, at)
  }

  /** The detail page's mileage: `_extract_number` of the captured numeral,
      which always succeeds because the capture starts with a digit. */
  function PageMileage(text: string): (r: Option<nat>)
    ensures r.Some? <==> FindMileage(text).Some?
  {
    match FindMileage(text)
    case None => None
    case Some(g) =>
      assert g[0] in g;
      Extractors.ExtractNumber(g)
  }

  /** "VIN" in any case at the start of a text. */
  lemma VinLabel(s: string)
    requires |s| >= 3 && s[0] == 'V' && s[1] == 'I' && s[2] == 'N'
    ensures WordAt(s, 0, "vin")
  {
    var w := ToLower(s[0..3]);
    assert w[0] == 'v' && w[1] == 'i' && w[2] == 'n';
  }

  /** A page text that starts with "VIN: " and a valid VIN yields that VIN. */
  lemma LabelledVinFound(vin: string)
    requires |vin| == VinLength && forall k :: 0 <= k < |vin| ==> IsVinChar(vin[k])
    ensures FindVin("VIN: " + vin) == Some(vin)
  {
    var s := "VIN: " + vin;
    assert s[0] == 'V' && s[1] == 'I' && s[2] == 'N' && s[3] == ':' && s[4] == ' ';
    VinLabel(s);
    assert s[5] == vin[0];
    SpanUnique(s, 3, IsVinSeparator, 5);
    forall k | 5 <= k < 22 ensures IsVinChar(s[k]) {
      assert s[k] == vin[k - 5];
    }
    SpanUnique(s, 5, IsVinChar, 22);
    assert s[5..22] == vin;
    assert VinAt(s, 0) == Some(vin);
  }

  /** "Stock" in any case at the start of a text. */
  lemma StockLabel(s: string)
    requires |s| >= 5 && s[0] == 'S' && s[1] == 't' && s[2] == 'o' && s[3] == 'c' && s[4] == 'k'
    ensures WordAt(s, 0, "stock")
  {
    var w := ToLower(s[0..5]);
    assert w[0] == 's' && w[1] == 't' && w[2] == 'o' && w[3] == 'c' && w[4] == 'k';
  }

  /** A page text that starts with "Stock# " and a stock number yields that
      stock number, all of it. */
  lemma LabelledStockFound(stock: string)
    requires stock != [] && forall k :: 0 <= k < |stock| ==> IsStockChar(stock[k])
    ensures FindStock("Stock# " + stock) == Some(stock)
  {
    var s := "Stock# " + stock;
    assert s[0] == 'S' && s[1] == 't' && s[2] == 'o' && s[3] == 'c' && s[4] == 'k';
    assert s[5] == '#' && s[6] == ' ';
    StockLabel(s);
    assert s[7] == stock[0];
    SpanUnique(s, 5, IsStockSeparator, 7);
    forall k | 7 <= k < |s| ensures IsStockChar(s[k]) {
      assert s[k] == stock[k - 7];
    }
    SpanUnique(s, 7, IsStockChar, |s|);
    assert s[7..|s|] == stock;
    assert StockAt(s, 0) == Some(stock);
  }
}

/** The field extractors of `CarDealerScraper`: `_extract_number`,
    `_extract_price` and `_parse_vehicle_title`. */
module Extractors {
  import opened Wrappers
  import opened Scan
  import opened Text
  import opened Numerals

  /** What Python's `float('')` raises. */
  const FloatError := "could not convert string to float: ''"

  /** `_extract_number`: delete every comma, then read the first maximal run
      of digits as an integer; None when the text has no digit at all
      (in particular when it is empty). */
  function ExtractNumber(text: string): (r: Option<nat>)
    ensures r.None? <==> forall c :: c in text ==> !IsDigit(c)
    ensures var t := Remove(text, ',');
      forall i: nat, j: nat :: IsFirstRun(t, IsDigit, i, j) ==> r == Some(DigitsValue(t[i..j]))
  {
    var t := Remove(text, ',');
    if text == [] then None
    else match FirstRun(t, IsDigit)
      case None =>
        assert forall c :: c in t ==> !IsDigit(c);
        None
      case Some((i, j)) =>
        assert t[i] in t;
        forall i': nat, j': nat | IsFirstRun(t, IsDigit, i', j') ensures (i', j') == (i, j) {
          FirstRunUnique(t, IsDigit, i', j');
        }
        Some(DigitsValue(t[i..j]))
  }

  /** `_extract_price`: the first maximal run of digits and commas (the
      group of `\$?([\d,]+)`) with its commas deleted, read as a whole
      number of dollars. A run made of commas only makes `float('')` raise,
      which is a Failure here; a text without any digit or comma gives
      None. */
  function ExtractPrice(text: string): (r: Result<Option<nat>, string>)
    ensures r == Success(None) <==> forall c :: c in text ==> !IsDigitOrComma(c)
    ensures r.Failure? ==> r.error == FloatError
    ensures forall i: nat, j: nat :: IsFirstRun(text, IsDigitOrComma, i, j) ==>
      var digits := Remove(text[i..j], ',');
      && (r.Failure? <==> digits == [])
      && (r.Success? ==> AllDigits(digits) && r.value == Some(DigitsValue(digits)))
  {
    if text == [] then Success(None)
    else match FirstRun(text, IsDigitOrComma)
      case None =>
        assert forall c :: c in text ==> !IsDigitOrComma(c);
        Success(None)
      case Some((i, j)) =>
        assert text[i] in text;
        forall i': nat, j': nat | IsFirstRun(text, IsDigitOrComma, i', j') ensures (i', j') == (i, j) {
          FirstRunUnique(text, IsDigitOrComma, i', j');
        }
        var digits := Remove(text[i..j], ',');
        if digits == [] then Failure(FloatError)
        else
          assert AllDigits(digits) by {
            forall k | 0 <= k < |digits| ensures IsDigit(digits[k]) {
              assert digits[k] in text[i..j];
            }
          }
          Success(Some(DigitsValue(digits)))
  }

  /** A price extraction fails exactly on texts whose first run of digits
      and commas holds no digit, such as "Call, for price". */
  lemma {:induction false} PriceFailsOnBareComma()
    ensures ExtractPrice("Call, for price").Failure?
  {
    var t := "Call, for price";
    assert IsFirstRun(t, IsDigitOrComma, 4, 5);
    assert t[4..5] == ",";
    assert Remove(",", ',') == "";
  }

  datatype TitleParts = TitleParts(year: Option<int>, make: Option<string>, model: Option<string>)

  const NoTitle := TitleParts(None, None, None)

  /** `part.isdigit() and len(part) == 4` */
  predicate IsYearWord(w: string) {
    |w| == 4 && AllDigits(w)
  }

  /** `title.strip().split()` */
  function TitleWords(title: string): seq<string> {
    SplitWords(Strip(title))
  }

  /** `_parse_vehicle_title`. With at least three words and a four-digit
      first word, that word is the year, the next the make and the rest the
      model. With at least three words otherwise, the first four-digit word
      is the year, the word before it the make and the words after it the
      model. Anything else yields nothing. */
  function ParseTitle(title: string): (r: TitleParts)
    ensures var ws := TitleWords(title);
      |ws| >= 3 && IsYearWord(ws[0]) ==>
        r == TitleParts(Some(DigitsValue(ws[0])), Some(ws[1]), Some(Join(ws[2..], " ")))
    ensures var ws := TitleWords(title);
      forall i :: (0 < i < |ws| && |ws| >= 3 && IsYearWord(ws[i])
                   && (forall k :: 0 <= k < i ==> !IsYearWord(ws[k]))) ==>
        r == TitleParts(Some(DigitsValue(ws[i])), Some(ws[i - 1]),
                        if i < |ws| - 1 then Some(Join(ws[i + 1..], " ")) else None)
    ensures var ws := TitleWords(title);
      r.year.None? <==> (|ws| < 3 || forall k :: 0 <= k < |ws| ==> !IsYearWord(ws[k]))
    ensures r.year.None? ==> r == NoTitle
    ensures r.year.Some? ==> 0 <= r.year.value <= 9999 && r.make.Some?
  {
    if title == [] then NoTitle
    else
      var ws := TitleWords(title);
      if |ws| < 3 then NoTitle
      else if IsYearWord(ws[0]) then
        YearWordBound(ws[0]);
        TitleParts(Some(DigitsValue(ws[0])), Some(ws[1]), Some(Join(ws[2..], " ")))
      else
        var isYear := (i: nat) => i < |ws| && IsYearWord(ws[i]);
        match FirstIndex(|ws|, isYear, 0)
        case None =>
          forall k | 0 <= k < |ws| ensures !IsYearWord(ws[k]) {
            assert !isYear(k);
          }
          NoTitle
        case Some(i) =>
          forall k | 0 <= k < i ensures !IsYearWord(ws[k]) {
            assert !isYear(k);
          }
          assert IsYearWord(ws[i]);
          YearWordBound(ws[i]);
          TitleParts(Some(DigitsValue(ws[i])),
                     if i > 0 then Some(ws[i - 1]) else None,
                     if i < |ws| - 1 then Some(Join(ws[i + 1..], " ")) else None)
  }

  lemma YearWordBound(w: string)
    requires IsYearWord(w)
    ensures DigitsValue(w) <= 9999
  {
    DigitsValueBound(w);
  }
}

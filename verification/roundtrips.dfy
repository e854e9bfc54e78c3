/** How the extractors read back what the summary writes: a mileage or a
    price rendered with thousands separators, and a "year make model"
    title, come back unchanged. */
module RoundTrips {
  import opened Wrappers
  import opened Scan
  import opened Text
  import opened Numerals
  import opened Extractors
  import opened Listings
  import opened Patterns

  /** Deleting the commas of a printed mileage leaves the plain numeral. */
  lemma UngroupedMileage(m: nat)
    ensures Remove(MileageText(m), ',') == NatToString(m) + " miles"
  {
    var ds := NatToString(m);
    var g := GroupDigits(ds);
    UngroupDigits(ds);
    RemoveAbsent(" miles", ',');
    RemoveAppend(g, " miles", ',');
  }

  /** `_extract_number` reads back the mileage `to_llm_summary` prints. */
  lemma MileageRoundTrip(m: nat)
    ensures ExtractNumber(MileageText(m)) == Some(m)
  {
    var ds := NatToString(m);
    UngroupedMileage(m);
    var t := Remove(MileageText(m), ',');
    assert t[0..|ds|] == ds;
    assert IsFirstRun(t, IsDigit, 0, |ds|) by {
      forall k | 0 <= k < |ds| ensures IsDigit(t[k]) {
        assert t[k] == ds[k];
      }
      assert t[|ds|] == ' ';
    }
    ValueOfString(m);
  }

  /** `_extract_price` reads back the price `to_llm_summary` prints. */
  lemma PriceRoundTrip(p: nat)
    ensures ExtractPrice(PriceText(p)) == Success(Some(p))
  {
    var ds := NatToString(p);
    var g := GroupDigits(ds);
    GroupDigitsChars(ds);
    var text := PriceText(p);
    assert text == "$" + g + ".00";
    assert text[1..|g| + 1] == g;
    assert IsFirstRun(text, IsDigitOrComma, 1, |g| + 1) by {
      forall k | 1 <= k < |g| + 1 ensures IsDigitOrComma(text[k]) {
        assert text[k] == g[k - 1];
      }
      assert text[|g| + 1] == '.';
    }
    UngroupDigits(ds);
    assert Remove(text[1..|g| + 1], ',') == ds;
    ValueOfString(p);
  }

  /** A title "year make model..." with a four-digit year and a non-empty
      model splits back into its parts. */
  lemma TitleRoundTrip(year: nat, make: string, model: seq<string>)
    requires 1000 <= year <= 9999
    requires IsWord(make) && model != [] && forall k :: 0 <= k < |model| ==> IsWord(model[k])
    ensures ParseTitle(Join([NatToString(year), make] + model, " "))
         == TitleParts(Some(year), Some(make), Some(Join(model, " ")))
  {
    var y := NatToString(year);
    var ws := [y, make] + model;
    FourDigitYear(year);
    assert IsYearWord(y);
    assert IsWord(y) by {
      forall k | 0 <= k < |y| ensures NotSpace(y[k]) {
        assert IsDigit(y[k]);
      }
    }
    assert forall k :: 0 <= k < |ws| ==> IsWord(ws[k]) by {
      forall k | 0 <= k < |ws| ensures IsWord(ws[k]) {
        if k >= 2 {
          assert ws[k] == model[k - 2];
        }
      }
    }
    var title := Join(ws, " ");
    JoinWordsBounds(ws);
    StripTrimmed(title);
    SplitJoin(ws);
    assert TitleWords(title) == ws;
    assert ws[2..] == model;
    ValueOfString(year);
  }

  /** A title joined from a year, a make and model words is the year, a
      space, the make, a space and the model words joined. */
  lemma JoinTitle(y: string, make: string, model: seq<string>)
    requires model != []
    ensures Join([y, make] + model, " ") == y + " " + make + " " + Join(model, " ")
  {
    var ws := [y, make] + model;
    assert ws[1..] == [make] + model;
    assert ([make] + model)[1..] == model;
  }

  /** The record a card with such a title yields is summarised under that
      same title. */
  lemma HeadingRoundTrip(car: CarListing, year: nat, make: string, model: seq<string>)
    requires 1000 <= year <= 9999
    requires IsWord(make) && model != [] && forall k :: 0 <= k < |model| ==> IsWord(model[k])
    requires var t := ParseTitle(Join([NatToString(year), make] + model, " "));
      car.year == t.year && car.make == t.make && car.model == t.model
    ensures Heading(car) == Join([NatToString(year), make] + model, " ")
  {
    TitleRoundTrip(year, make, model);
    JoinWordsBounds(model);
    assert car.year == Some(year as int) && car.make == Some(make) && car.model == Some(Join(model, " "));
    assert ShownInt(car.year) && ShownStr(car.make) && ShownStr(car.model);
    assert IntToString(year) == NatToString(year);
    JoinTitle(NatToString(year), make, model);
  }

  /** A numeral of at most `k` digits is exactly a number below `10^k`. */
  lemma {:induction false} ShortNumeral(n: nat, k: nat)
    requires k >= 1
    ensures |NatToString(n)| <= k <==> n < Pow10(k)
    decreases n
  {
    assert Pow10(k) == 10 * Pow10(k - 1);
    if n >= 10 {
      LengthStep(n);
      if k > 1 {
        ShortNumeral(n / 10, k - 1);
      }
    }
  }

  /** `_extract_number` reads back any number printed with thousands
      separators. */
  lemma GroupedRoundTrip(m: nat)
    ensures ExtractNumber(Grouped(m)) == Some(m)
  {
    var ds := NatToString(m);
    UngroupDigits(ds);
    assert Remove(Grouped(m), ',') == ds;
    assert ds[0..|ds|] == ds;
    assert IsFirstRun(ds, IsDigit, 0, |ds|);
    ValueOfString(m);
  }

  /** The mileage group of a plain numeral followed by " miles". */
  lemma PlainMileageMatch(ds: string)
    requires ds != [] && AllDigits(ds)
    ensures MileageAt(ds + " miles", 0) == Some(ds)
  {
    var s := ds + " miles";
    var n := |ds|;
    assert s == [] + ds + " miles";
    SpanOver([], ds, " miles", IsDigit);
    assert s == ds + " " + "miles";
    SpanOver(ds, " ", "miles", IsSpace);
    MileWord(s, n + 1);
    MileageAtPlain(s, 0, n);
    assert s[0..n] == ds;
  }

  /** A match of the mileage pattern with one comma, stated on positions:
      digits in `[i, j)`, the comma at `j`, digits in `(j, k)`, then " mile". */
  lemma GroupedMatchAt(s: string, i: nat, j: nat, k: nat)
    requires i < j < k && k + 5 <= |s|
    requires forall t :: i <= t < j ==> IsDigit(s[t])
    requires s[j] == ','
    requires forall t :: j < t < k ==> IsDigit(s[t])
    requires s[k] == ' ' && s[k + 1] == 'm' && s[k + 2] == 'i' && s[k + 3] == 'l' && s[k + 4] == 'e'
    ensures MileageAt(s, i) == Some(s[i..k])
  {
    SpanUnique(s, i, IsDigit, j);
    SpanUnique(s, j + 1, IsDigit, k);
    SpanUnique(s, k, IsSpace, k + 1);
    MileWord(s, k + 1);
    MileageAtGrouped(s, i, j, k);
  }

  /** The mileage group of a numeral with one thousands comma followed by
      " miles", wherever in the text it starts. */
  lemma GroupedMileageMatch(pre: string, hi: string, lo: string)
    requires hi != [] && AllDigits(hi) && lo != [] && AllDigits(lo)
    ensures MileageAt(pre + hi + "," + lo + " miles", |pre|) == Some(hi + "," + lo)
  {
    var s := pre + hi + "," + lo + " miles";
    var j := |pre| + |hi|;
    var n := j + 1 + |lo|;
    GroupedDigits(pre, hi, lo);
    GroupedTail(pre, hi, lo);
    GroupedMatchAt(s, |pre|, j, n);
  }

  /** The character classes along a grouped numeral placed in a text. */
  lemma GroupedDigits(pre: string, hi: string, lo: string)
    requires AllDigits(hi) && AllDigits(lo)
    ensures var s := pre + hi + "," + lo + " miles";
      var j := |pre| + |hi|;
      (forall t :: |pre| <= t < j ==> IsDigit(s[t]))
      && s[j] == ','
      && (forall t :: j < t < j + 1 + |lo| ==> IsDigit(s[t]))
  {
    var s := pre + hi + "," + lo + " miles";
    var j := |pre| + |hi|;
    forall t | |pre| <= t < j ensures IsDigit(s[t]) {
      assert s[t] == hi[t - |pre|];
    }
    forall t | j < t < j + 1 + |lo| ensures IsDigit(s[t]) {
      assert s[t] == lo[t - j - 1];
    }
  }

  /** What follows a grouped numeral placed in a text, and the numeral. */
  lemma GroupedTail(pre: string, hi: string, lo: string)
    ensures var s := pre + hi + "," + lo + " miles";
      var n := |pre| + |hi| + 1 + |lo|;
      n + 6 == |s| && s[|pre|..n] == hi + "," + lo
      && s[n] == ' ' && s[n + 1] == 'm' && s[n + 2] == 'i' && s[n + 3] == 'l' && s[n + 4] == 'e'
  {
    var s := pre + hi + "," + lo + " miles";
    var n := |pre| + |hi| + 1 + |lo|;
    assert s == (pre + (hi + "," + lo)) + " miles";
  }

  lemma MileWord(s: string, i: nat)
    requires i + 4 <= |s| && s[i] == 'm' && s[i + 1] == 'i' && s[i + 2] == 'l' && s[i + 3] == 'e'
    ensures WordAt(s, i, "mile")
  {
    var w := ToLower(s[i..i + 4]);
    assert w[0] == 'm' && w[1] == 'i' && w[2] == 'l' && w[3] == 'e';
  }

  /** Below a thousand there is no separator. */
  lemma GroupedSmall(m: nat)
    requires m < 1000
    ensures Grouped(m) == NatToString(m)
  {
    ShortNumeral(m, 3);
    assert Pow10(3) == 1000;
  }

  /** From a thousand to a million there is exactly one separator. */
  lemma GroupedThousands(m: nat)
    requires 1000 <= m < 1000000
    ensures var ds := NatToString(m);
      |ds| > 3 && |ds[..|ds| - 3]| <= 3
      && Grouped(m) == ds[..|ds| - 3] + "," + ds[|ds| - 3..]
  {
    var ds := NatToString(m);
    ShortNumeral(m, 3);
    ShortNumeral(m, 6);
    assert Pow10(3) == 1000 && Pow10(6) == 1000000;
    var hi := ds[..|ds| - 3];
    assert GroupDigits(hi) == hi;
  }

  /** The parts of a digit string are digit strings. */
  lemma DigitParts(ds: string, n: nat)
    requires AllDigits(ds) && n <= |ds|
    ensures AllDigits(ds[..n]) && AllDigits(ds[n..])
  {
    assert forall k :: 0 <= k < n ==> ds[..n][k] == ds[k];
    assert forall k :: 0 <= k < |ds| - n ==> ds[n..][k] == ds[n + k];
  }

  /** The printed mileage matches the mileage pattern at its first
      character, capturing the grouped numeral. */
  lemma MileageTextMatch(m: nat)
    requires m < 1000000
    ensures MileageAt(MileageText(m), 0) == Some(Grouped(m))
  {
    var ds := NatToString(m);
    if m < 1000 {
      GroupedSmall(m);
      PlainMileageMatch(ds);
    } else {
      GroupedThousands(m);
      DigitParts(ds, |ds| - 3);
      GroupedMileageMatch([], ds[..|ds| - 3], ds[|ds| - 3..]);
      assert [] + Grouped(m) + " miles" == MileageText(m);
    }
  }

  /** A match at the first character is the leftmost match. */
  lemma MatchAtStart(text: string)
    requires MileageAt(text, 0).Some?
    ensures FindMileage(text) == MileageAt(text, 0)
  {
  }

  /** The detail page reads back a mileage below a million printed as
      `to_llm_summary` prints it. */
  lemma PageMileageRoundTrip(m: nat)
    requires m < 1000000
    ensures PageMileage(MileageText(m)) == Some(m)
  {
    var text := MileageText(m);
    MileageTextMatch(m);
    MatchAtStart(text);
    GroupedRoundTrip(m);
  }

  /** With two separators the one-comma mileage pattern cannot match from
      the first group: the match starts at the second group, so
      "1,234,567 miles" reads as 234567. */
  lemma TwoSeparatorsMisread(a: string, b: string, c: string)
    requires a != [] && AllDigits(a) && b != [] && AllDigits(b) && c != [] && AllDigits(c)
    ensures FindMileage(a + "," + b + "," + c + " miles") == Some(b + "," + c)
  {
    var s := a + "," + b + "," + c + " miles";
    forall i | 0 <= i <= |a| ensures MileageAt(s, i).None? {
      if i < |a| {
        FirstGroupBlocked(a, b, c, i);
      }
    }
    GroupedMileageMatch(a + ",", b, c);
    assert (a + ",") + b + "," + c + " miles" == s;
  }

  /** No match of the mileage pattern starts inside the first of three
      comma-separated digit groups. */
  lemma FirstGroupBlocked(a: string, b: string, c: string, i: nat)
    requires a != [] && AllDigits(a) && b != [] && AllDigits(b) && c != [] && AllDigits(c)
    requires i < |a|
    ensures MileageAt(a + "," + b + "," + c + " miles", i).None?
  {
    var s := a + "," + b + "," + c + " miles";
    var j := |a|;
    var k := |a| + 1 + |b|;
    assert s == (a + ",") + b + ("," + c + " miles");
    SpanOver(a + ",", b, "," + c + " miles", IsDigit);
    assert s[j] == ',' && s[k] == ',';
    SpanInFirstGroup(a, "," + b + "," + c + " miles", i);
    assert s == a + ("," + b + "," + c + " miles");
    assert s[i] == a[i];
    MileageAtBlocked(s, i, j, k);
  }

  /** From anywhere in a leading digit group, the digits run to its end. */
  lemma SpanInFirstGroup(a: string, post: string, i: nat)
    requires AllDigits(a) && i < |a| && post != [] && !IsDigit(post[0])
    ensures Span(a + post, i, IsDigit) == |a|
  {
    var pre, d := a[..i], a[i..];
    assert a + post == pre + d + post;
    assert forall t :: 0 <= t < |d| ==> d[t] == a[i + t];
    SpanOver(pre, d, post, IsDigit);
  }
}

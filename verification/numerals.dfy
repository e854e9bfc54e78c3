/** Decimal numerals: Python's `int(s)` on a digit string, `str(n)`, and
    the thousands grouping of the `,` format option. */
module Numerals {
  import opened Text

  predicate AllDigits(s: string) {
    forall k :: 0 <= k < |s| ==> IsDigit(s[k])
  }

  function DigitValue(c: char): (d: nat)
    requires IsDigit(c)
    ensures d < 10
  {
    c as int - '0' as int
  }

  function DigitChar(d: nat): (c: char)
    requires d < 10
    ensures IsDigit(c) && DigitValue(c) == d
  {
    ('0' as int + d) as char
  }

  /** Python's `int(s)` on a non-empty string of ASCII digits (leading
      zeros allowed). */
  function DigitsValue(s: string): nat
    requires AllDigits(s)
    decreases |s|
  {
    if s == [] then 0 else DigitsValue(s[..|s| - 1]) * 10 + DigitValue(s[|s| - 1])
  }

  /** Python's `str(n)` for a non-negative integer. */
  function NatToString(n: nat): (r: string)
    ensures r != [] && AllDigits(r)
    ensures |r| == 1 || r[0] != '0'
    ensures n < 10 <==> |r| == 1
  {
    (if n < 10 then "" else NatToString(n / 10)) + [DigitChar(n % 10)]
  }

  /** Python's `str(i)`. */
  function IntToString(i: int): string {
    if i < 0 then "-" + NatToString(-i) else NatToString(i)
  }

  /** The digits `ds` split into groups of three from the right, separated
      by commas, as the `,` option of Python's format mini-language does. */
  function GroupDigits(ds: string): (r: string)
    ensures |ds| > 0 ==> |r| == |ds| + (|ds| - 1) / 3
    decreases |ds|
  {
    if |ds| <= 3 then ds else GroupDigits(ds[..|ds| - 3]) + "," + ds[|ds| - 3..]
  }

  /** Python's `f"{i:,}"` for an integer. */
  function Grouped(i: int): string {
    if i < 0 then "-" + GroupDigits(NatToString(-i)) else GroupDigits(NatToString(i))
  }

  predicate IsDigitOrComma(c: char) {
    IsDigit(c) || c == ','
  }

  /** `int(str(n)) == n`. */
  lemma {:induction false} ValueOfString(n: nat)
    ensures DigitsValue(NatToString(n)) == n
  {
    var s := NatToString(n);
    assert s[..|s| - 1] == if n < 10 then "" else NatToString(n / 10);
    if n >= 10 {
      ValueOfString(n / 10);
    }
  }

  /** A digit string without a leading zero is its own `str(int(s))`. */
  lemma {:induction false} StringOfValue(s: string)
    requires s != [] && AllDigits(s) && (|s| == 1 || s[0] != '0')
    ensures NatToString(DigitsValue(s)) == s
    decreases |s|
  {
    var p := s[..|s| - 1];
    var last := s[|s| - 1];
    var v := DigitsValue(s);
    DigitCharOfValue(last);
    if p == [] {
      assert s == [last];
    } else {
      assert p[0] == s[0];
      LeadingDigitValue(p);
      StringOfValue(p);
      assert v == DigitsValue(p) * 10 + DigitValue(last);
      assert v / 10 == DigitsValue(p) && v % 10 == DigitValue(last);
      assert NatToString(v) == NatToString(v / 10) + [DigitChar(v % 10)];
      assert s == p + [last];
    }
  }

  lemma DigitCharOfValue(c: char)
    requires IsDigit(c)
    ensures DigitChar(DigitValue(c)) == c
  {
  }


  /** Two or more digits without a leading zero have value at least 10. */
  lemma {:induction false} LeadingDigitValue(s: string)
    requires s != [] && AllDigits(s) && (|s| == 1 || s[0] != '0')
    ensures |s| > 1 ==> DigitsValue(s) >= 10
    ensures s[0] != '0' ==> DigitsValue(s) >= 1
    decreases |s|
  {
    if |s| > 1 {
      var p := s[..|s| - 1];
      assert p[0] == s[0];
      LeadingDigitValue(p);
    }
  }

  /** Deleting the commas of a grouped numeral gives the digits back. */
  lemma {:induction false} UngroupDigits(ds: string)
    requires ',' !in ds
    ensures Remove(GroupDigits(ds), ',') == ds
    decreases |ds|
  {
    if |ds| <= 3 {
      RemoveAbsent(ds, ',');
    } else {
      var hi := ds[..|ds| - 3];
      var lo := ds[|ds| - 3..];
      CommaFreeParts(ds, |ds| - 3);
      var g := GroupDigits(hi);
      UngroupDigits(hi);
      RemoveAbsent(lo, ',');
      UngroupStep(g, lo);
      assert GroupDigits(ds) == (g + ",") + lo;
      assert hi + lo == ds;
    }
  }

  lemma CommaFreeParts(ds: string, n: nat)
    requires ',' !in ds && n <= |ds|
    ensures ',' !in ds[..n] && ',' !in ds[n..]
  {
    assert ds == ds[..n] + ds[n..];
  }

  /** Deleting the commas of `g + "," + lo` deletes those of each part. */
  lemma UngroupStep(g: string, lo: string)
    ensures Remove((g + ",") + lo, ',') == Remove(g, ',') + Remove(lo, ',')
  {
    assert Remove(",", ',') == "";
    RemoveAppend(g, ",", ',');
    RemoveAppend(g + ",", lo, ',');
  }

  /** A grouped numeral consists of digits and commas only, and starts and
      ends with a digit. */
  lemma {:induction false} GroupDigitsChars(ds: string)
    requires ds != [] && AllDigits(ds)
    ensures var g := GroupDigits(ds);
      g != [] && IsDigit(g[0]) && IsDigit(g[|g| - 1])
      && forall k :: 0 <= k < |g| ==> IsDigitOrComma(g[k])
    decreases |ds|
  {
    if |ds| > 3 {
      GroupDigitsChars(ds[..|ds| - 3]);
    }
  }

  /** In a grouped numeral the commas sit exactly at every fourth position
      counted from the right: each is followed by a group of three digits. */
  lemma {:induction false} GroupDigitsCommas(ds: string)
    requires AllDigits(ds)
    ensures forall k :: 0 <= k < |GroupDigits(ds)| ==>
              (GroupDigits(ds)[k] == ',' <==> (|GroupDigits(ds)| - k) % 4 == 0)
    decreases |ds|
  {
    var g := GroupDigits(ds);
    if |ds| <= 3 {
      forall k | 0 <= k < |g| ensures (g[k] == ',' <==> (|g| - k) % 4 == 0) {
        assert IsDigit(g[k]);
        assert 1 <= |g| - k <= 3;
      }
    } else {
      var hi := ds[..|ds| - 3];
      var lo := ds[|ds| - 3..];
      assert AllDigits(hi) by {
        forall k | 0 <= k < |hi| ensures IsDigit(hi[k]) {
          assert hi[k] == ds[k];
        }
      }
      GroupDigitsCommas(hi);
      var h := GroupDigits(hi);
      assert g == h + "," + lo;
      assert |g| == |h| + 4;
      forall k | 0 <= k < |g| ensures (g[k] == ',' <==> (|g| - k) % 4 == 0) {
        if k < |h| {
          assert g[k] == h[k];
          var m := |h| - k;
          assert |g| - k == m + 4;
          assert (m + 4) % 4 == m % 4;
          assert h[k] == ',' <==> m % 4 == 0;
          assert (g[k] == ',' <==> (|g| - k) % 4 == 0);
        } else if k == |h| {
          assert g[k] == ',';
          assert (g[k] == ',' <==> (|g| - k) % 4 == 0);
        } else {
          assert g[k] == lo[k - |h| - 1] == ds[|ds| - 3 + (k - |h| - 1)];
          assert IsDigit(g[k]);
          var m := |g| - k;
          assert m == 1 || m == 2 || m == 3;
          assert (g[k] == ',' <==> (|g| - k) % 4 == 0);
        }
      }
    }
  }

  function Pow10(n: nat): (r: nat)
    ensures r >= 1
  {
    if n == 0 then 1 else 10 * Pow10(n - 1)
  }

  /** A numeral of `n` digits is below `10^n`. */
  lemma {:induction false} DigitsValueBound(s: string)
    requires AllDigits(s)
    ensures DigitsValue(s) < Pow10(|s|)
    decreases |s|
  {
    if s != [] {
      DigitsValueBound(s[..|s| - 1]);
    }
  }

  /** Years between 1000 and 9999 print as exactly four digits. */
  lemma FourDigitYear(y: nat)
    requires 1000 <= y <= 9999
    ensures |NatToString(y)| == 4
  {
    LengthStep(y);
    LengthStep(y / 10);
    LengthStep(y / 10 / 10);
  }

  lemma LengthStep(n: nat)
    requires n >= 10
    ensures |NatToString(n)| == |NatToString(n / 10)| + 1
  {
  }
}

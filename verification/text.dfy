/** The Python `str` operations the scraper relies on, over `seq<char>`:
    `isspace`, `strip`, `lstrip(c)`, `rstrip(c)`, `startswith`, `endswith`,
    `in`, `lower`, `replace(c, '')`, `split()` and `sep.join(...)`. */
module Text {
  import opened Scan

  /** Python's `str.isspace` (also the `\s` class of `re` on text patterns). */
  predicate IsSpace(c: char) {
    ('\t' <= c <= '\r') || ('\U{1C}' <= c <= '\U{1F}') || c == ' '
    || c == '\U{85}' || c == '\U{A0}' || c == '\U{1680}'
    || ('\U{2000}' <= c <= '\U{200A}') || c == '\U{2028}' || c == '\U{2029}'
    || c == '\U{202F}' || c == '\U{205F}' || c == '\U{3000}'
  }

  predicate NotSpace(c: char) {
    !IsSpace(c)
  }

  predicate IsDigit(c: char) {
    '0' <= c <= '9'
  }

  predicate IsSlash(c: char) {
    c == '/'
  }

  /** ASCII lower-casing of one character. */
  function Lower(c: char): char {
    if 'A' <= c <= 'Z' then (c as int + 32) as char else c
  }

  function ToLower(s: string): (r: string)
    ensures |r| == |s|
    ensures forall k :: 0 <= k < |s| ==> r[k] == Lower(s[k])
  {
    seq(|s|, k requires 0 <= k < |s| => Lower(s[k]))
  }

  predicate StartsWith(s: string, prefix: string) {
    |prefix| <= |s| && s[..|prefix|] == prefix
  }

  predicate EndsWith(s: string, suffix: string) {
    |suffix| <= |s| && s[|s| - |suffix|..] == suffix
  }

  /** Python's `sub in s`. */
  predicate Contains(s: string, sub: string)
    decreases |s|
  {
    StartsWith(s, sub) || (s != [] && Contains(s[1..], sub))
  }

  function Min(a: int, b: int): int {
    if a <= b then a else b
  }

  /** Python's slice `s[:n]`. */
  function Take<T>(s: seq<T>, n: nat): (r: seq<T>)
    ensures |r| == Min(n, |s|)
    ensures r == s[..|r|]
  {
    s[..Min(n, |s|)]
  }

  /** Python's `s.lstrip(chars)`, with `p` the set of characters stripped. */
  function LStripWhere(s: string, p: char -> bool): (r: string)
    ensures |r| <= |s| && r == s[|s| - |r|..]
    ensures forall k :: 0 <= k < |s| - |r| ==> p(s[k])
    ensures r == [] || !p(r[0])
  {
    s[Span(s, 0, p)..]
  }

  /** Python's `s.rstrip(chars)`, with `p` the set of characters stripped. */
  function RStripWhere(s: string, p: char -> bool): (r: string)
    ensures |r| <= |s| && r == s[..|r|]
    ensures forall k :: |r| <= k < |s| ==> p(s[k])
    ensures r == [] || !p(r[|r| - 1])
    decreases |s|
  {
    if s != [] && p(s[|s| - 1]) then RStripWhere(s[..|s| - 1], p) else s
  }

  /** Python's `s.strip()`. */
  function Strip(s: string): (r: string)
    ensures Trimmed(r)
    ensures exists i :: (0 <= i <= |s| && |r| <= |s| - i && r == s[i..][..|r|]
                         && (forall k :: 0 <= k < i ==> IsSpace(s[k]))
                         && (forall k :: i + |r| <= k < |s| ==> IsSpace(s[k])))
  {
    var l := LStripWhere(s, IsSpace);
    var r := RStripWhere(l, IsSpace);
    var i := |s| - |l|;
    assert s[i..] == l;
    forall k | i + |r| <= k < |s| ensures IsSpace(s[k]) {
      assert s[k] == l[k - i];
    }
    r
  }

  /** Python's `s.replace(c, '')`. */
  function Remove(s: string, c: char): (r: string)
    ensures c !in r
    ensures forall x :: x != c ==> (x in r <==> x in s)
    ensures |r| <= |s|
    decreases |s|
  {
    if s == [] then []
    else (if s[0] == c then [] else [s[0]]) + Remove(s[1..], c)
  }

  /** Python's `sep.join(ws)`. */
  function Join(ws: seq<string>, sep: string): string
    decreases |ws|
  {
    if ws == [] then ""
    else if |ws| == 1 then ws[0]
    else ws[0] + sep + Join(ws[1..], sep)
  }

  /** A token produced by `str.split()`: non-empty, no whitespace. */
  predicate IsWord(w: string) {
    w != [] && forall k :: 0 <= k < |w| ==> NotSpace(w[k])
  }

  /** Python's `s.split()`: the maximal runs of non-whitespace characters. */
  function SplitWords(s: string): (ws: seq<string>)
    ensures forall k :: 0 <= k < |ws| ==> IsWord(ws[k])
    decreases |s|
  {
    if s == [] then []
    else if IsSpace(s[0]) then SplitWords(s[1..])
    else
      var n := Span(s, 0, NotSpace);
      [s[..n]] + SplitWords(s[n..])
  }

  lemma RemoveAppend(a: string, b: string, c: char)
    ensures Remove(a + b, c) == Remove(a, c) + Remove(b, c)
    decreases |a|
  {
    if a != [] {
      assert (a + b)[0] == a[0];
      assert (a + b)[1..] == a[1..] + b;
      RemoveAppend(a[1..], b, c);
    } else {
      assert a + b == b;
    }
  }

  lemma {:induction false} RemoveAbsent(s: string, c: char)
    requires c !in s
    ensures Remove(s, c) == s
    decreases |s|
  {
    if s != [] {
      RemoveAbsent(s[1..], c);
    }
  }

  /** `split()` undoes `" ".join(...)` on a list of tokens. */
  lemma {:induction false} SplitJoin(ws: seq<string>)
    requires forall k :: 0 <= k < |ws| ==> IsWord(ws[k])
    ensures SplitWords(Join(ws, " ")) == ws
    decreases |ws|
  {
    if ws == [] {
    } else if |ws| == 1 {
      SplitWord(ws[0], "");
      assert ws[0] + "" == ws[0];
    } else {
      var tail := ws[1..];
      assert forall k :: 0 <= k < |tail| ==> tail[k] == ws[k + 1];
      var rest := Join(tail, " ");
      JoinCons(ws, " ");
      SplitWord(ws[0], " " + rest);
      SplitLeadingSpace(rest);
      SplitJoin(tail);
      assert ws == [ws[0]] + tail;
    }
  }

  lemma JoinCons(ws: seq<string>, sep: string)
    requires |ws| >= 2
    ensures Join(ws, sep) == ws[0] + (sep + Join(ws[1..], sep))
  {
  }


  lemma SplitLeadingSpace(t: string)
    ensures SplitWords(" " + t) == SplitWords(t)
  {
    assert (" " + t)[1..] == t;
  }

  /** A word followed by nothing or by whitespace is split off whole. */
  lemma SplitWord(w: string, tail: string)
    requires IsWord(w)
    requires tail == [] || IsSpace(tail[0])
    ensures SplitWords(w + tail) == [w] + SplitWords(tail)
  {
    var s := w + tail;
    SpanUnique(s, 0, NotSpace, |w|);
    assert s[..|w|] == w;
    assert s[|w|..] == tail;
  }

  /** A list of tokens joined by single spaces has no surrounding spaces. */
  lemma {:induction false} JoinWordsBounds(ws: seq<string>)
    requires ws != []
    requires forall k :: 0 <= k < |ws| ==> IsWord(ws[k])
    ensures var j := Join(ws, " "); j != [] && NotSpace(j[0]) && NotSpace(j[|j| - 1])
    decreases |ws|
  {
    assert IsWord(ws[0]);
    if |ws| > 1 {
      JoinWordsBounds(ws[1..]);
    }
  }

  /** Neither starts nor ends with whitespace. */
  predicate Trimmed(s: string) {
    s == [] || (NotSpace(s[0]) && NotSpace(s[|s| - 1]))
  }

  lemma TrimmedConcat(a: string, b: string)
    requires Trimmed(a) && Trimmed(b)
    ensures Trimmed(a + b)
  {
    if a != [] && b != [] {
      assert (a + b)[0] == a[0];
      assert (a + b)[|a + b| - 1] == b[|b| - 1];
    } else if a == [] {
      assert a + b == b;
    } else {
      assert a + b == a;
    }
  }

  /** Stripping a string that neither starts nor ends with whitespace
      changes nothing. */
  lemma StripTrimmed(s: string)
    requires Trimmed(s)
    ensures Strip(s) == s
  {
    if s != [] {
      assert Span(s, 0, IsSpace) == 0;
      assert LStripWhere(s, IsSpace) == s;
    }
  }

  lemma JoinThree(ws: seq<string>, sep: string)
    ensures |ws| == 3 ==> Join(ws, sep) == ws[0] + sep + ws[1] + sep + ws[2]
  {
    if |ws| == 3 {
      var tail := ws[1..];
      assert |tail| == 2 && tail[0] == ws[1];
      assert tail[1..] == [ws[2]];
      assert Join(tail[1..], sep) == ws[2];
      assert Join(tail, sep) == ws[1] + sep + ws[2];
      assert Join(ws, sep) == ws[0] + sep + (ws[1] + sep + ws[2]);
    }
  }

  /** When the tail is at least as long as the suffix, ending in the suffix
      is decided by the tail alone. */
  lemma EndsWithTail(head: string, tail: string, suffix: string)
    requires |tail| >= |suffix|
    ensures EndsWith(head + tail, suffix) <==> EndsWith(tail, suffix)
  {
    assert (head + tail)[|head + tail| - |suffix|..] == tail[|tail| - |suffix|..];
  }

  /** `head + "/" + tail` cannot end in a slash-free suffix longer than `tail`. */
  lemma EndsWithShortTail(head: string, tail: string, suffix: string)
    requires |tail| < |suffix| && '/' !in suffix
    ensures !EndsWith(head + "/" + tail, suffix)
  {
    var s := head + "/" + tail;
    if |suffix| <= |s| {
      var k := |suffix| - |tail| - 1;
      assert s[|s| - |suffix| + k] == '/';
      assert s[|s| - |suffix|..][k] == '/';
      assert suffix[k] in suffix;
    }
  }
}

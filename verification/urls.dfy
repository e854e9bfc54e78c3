/** The literal URL-joining rule of the scraper: an href that already
    starts with "http" is kept as is; anything else is glued to the base
    URL with exactly one slash (`base.rstrip('/') + '/' + href.lstrip('/')`).
    There is no `..` handling or any other URL resolution. */
module Urls {
  import opened Scan
  import opened Text

  /** `base.rstrip('/')` */
  function TrimBase(base: string): (b: string)
    ensures b == [] || b[|b| - 1] != '/'
    ensures |b| <= |base| && b == base[..|b|] && forall k :: |b| <= k < |base| ==> base[k] == '/'
  {
    RStripWhere(base, IsSlash)
  }

  /** `href.lstrip('/')` */
  function TrimHref(href: string): (h: string)
    ensures h == [] || h[0] != '/'
    ensures |h| <= |href| && h == href[|href| - |h|..] && forall k :: 0 <= k < |href| - |h| ==> href[k] == '/'
  {
    LStripWhere(href, IsSlash)
  }

  function Resolve(base: string, href: string): (r: string)
    ensures StartsWith(href, "http") ==> r == href
    ensures !StartsWith(href, "http") ==>
      var b := TrimBase(base);
      StartsWith(r, b + "/") && EndsWith(r, TrimHref(href)) && |r| == |b| + 1 + |TrimHref(href)|
  {
    if StartsWith(href, "http") then href else TrimBase(base) + "/" + TrimHref(href)
  }

  /** `url.rstrip('/') + '/inventory'`: the page listing the dealership's stock. */
  function InventoryUrl(url: string): (r: string)
    ensures EndsWith(r, "/" + InventoryPath)
  {
    TrimBase(url) + "/" + InventoryPath
  }

  const InventoryPath := "inventory"

  /** Where base and relative href meet there is exactly one slash: the
      character before it and the one after it are not slashes. */
  lemma ResolveSingleSlash(base: string, href: string)
    requires !StartsWith(href, "http")
    ensures var r := Resolve(base, href); var i := |TrimBase(base)|;
      i < |r| && r[i] == '/'
      && (i == 0 || r[i - 1] != '/')
      && (i + 1 == |r| || r[i + 1] != '/')
  {
    var b := TrimBase(base);
    var h := TrimHref(href);
    var r := b + "/" + h;
    assert r[|b|] == '/';
    if |b| > 0 {
      assert r[|b| - 1] == b[|b| - 1];
    }
    if |b| + 1 < |r| {
      assert r[|b| + 1] == h[0];
    }
  }

  /** Extra slashes at the end of the base or at the start of the href make
      no difference. */
  lemma ResolveIgnoresExtraSlashes(base: string, href: string)
    requires !StartsWith(href, "http")
    ensures Resolve(base + "/", href) == Resolve(base, href)
    ensures Resolve(base, "/" + href) == Resolve(base, href)
  {
    assert (base + "/")[..|base|] == base;
    assert TrimBase(base + "/") == TrimBase(base);
    assert ("/" + href)[1..] == href;
    assert Span("/" + href, 0, IsSlash) == Span("/" + href, 1, IsSlash);
    SpanShift(href, 0);
    assert TrimHref("/" + href) == TrimHref(href);
    assert !StartsWith("/" + href, "http");
  }

  lemma {:induction false} SpanShift(s: string, i: nat)
    requires i <= |s|
    ensures Span("/" + s, i + 1, IsSlash) == Span(s, i, IsSlash) + 1
    decreases |s| - i
  {
    assert ("/" + s)[i + 1..] == s[i..];
    if i < |s| && IsSlash(s[i]) {
      assert ("/" + s)[i + 1] == s[i];
      SpanShift(s, i + 1);
    } else if i < |s| {
      assert ("/" + s)[i + 1] == s[i];
    }
  }

  /** Resolving is idempotent when the base is itself absolute: the joined
      URL starts with "http", so resolving it again keeps it. */
  lemma ResolveIdempotent(base: string, href: string)
    requires StartsWith(base, "http")
    ensures Resolve(base, Resolve(base, href)) == Resolve(base, href)
  {
    if !StartsWith(href, "http") {
      var b := TrimBase(base);
      assert base[3] == "http"[3];
      assert b[..4] == base[..4];
      var r := b + "/" + TrimHref(href);
      assert r[..4] == b[..4];
    }
  }

  /** An href with no leading slash is not trimmed. */
  lemma NoLeadingSlash(href: string)
    requires href != [] && href[0] != '/'
    ensures TrimHref(href) == href
  {
  }

  /** A relative href with no leading slash is appended after exactly
      one slash, and a leading slash added to it changes nothing. */
  lemma RelativeJoin(base: string, href: string)
    requires href != [] && href[0] != '/' && !StartsWith(href, "http")
    ensures Resolve(base, href) == TrimBase(base) + "/" + href
    ensures Resolve(base, "/" + href) == Resolve(base, href)
  {
    NoLeadingSlash(href);
    ResolveIgnoresExtraSlashes(base, href);
  }

  lemma InventoryIsRelative()
    ensures InventoryPath[0] != '/' && !StartsWith(InventoryPath, "http")
  {
    assert InventoryPath[..4][0] == 'i';
  }

  /** The inventory URL follows the same joining rule as every link. */
  lemma InventoryUrlIsResolved(url: string)
    ensures InventoryUrl(url) == Resolve(url, InventoryPath)
    ensures InventoryUrl(url) == Resolve(url, "/" + InventoryPath)
  {
    InventoryIsRelative();
    RelativeJoin(url, InventoryPath);
  }
}

/** Image collection shared by the card and detail-page parsers: for every
    `img`, `src` (or `data-src` when `src` is missing or empty) is kept
    unless empty or ending in ".svg" / ".gif" (and, on detail pages, unless
    it contains "logo" in any case), then resolved against the base URL.
    Order and duplicates are preserved. */
module Images {
  import opened Wrappers
  import opened Text
  import opened Dom
  import opened Urls

  /** `img.get('src') or img.get('data-src')` */
  function Source(img: Node): Option<string> {
    if img.Element? && "src" in img.attrs && img.attrs["src"] != "" then Some(img.attrs["src"])
    else if img.Element? && "data-src" in img.attrs then Some(img.attrs["data-src"])
    else None
  }

  /** `src and not src.endswith(('.svg', '.gif'))`, and on detail pages also
      `'logo' not in src.lower()`. */
  predicate Kept(src: Option<string>, dropLogos: bool) {
    && src.Some? && src.value != ""
    && !EndsWith(src.value, ".svg") && !EndsWith(src.value, ".gif")
    && (dropLogos ==> !Contains(ToLower(src.value), "logo"))
  }

  function ImageUrls(base: string, imgs: seq<Node>, dropLogos: bool): (r: seq<string>)
    ensures |r| <= |imgs|
    ensures forall u :: u in r ==> !EndsWith(u, ".svg") && !EndsWith(u, ".gif")
    decreases |imgs|
  {
    if imgs == [] then []
    else
      var src := Source(imgs[0]);
      var rest := ImageUrls(base, imgs[1..], dropLogos);
      if Kept(src, dropLogos) then
        ResolveKeepsSuffixOut(base, src.value, ".svg");
        ResolveKeepsSuffixOut(base, src.value, ".gif");
        [Resolve(base, src.value)] + rest
      else rest
  }

  /** Every kept image is in the list, resolved. */
  lemma {:induction false} ImageUrlsComplete(base: string, imgs: seq<Node>, dropLogos: bool, i: nat)
    requires i < |imgs| && Kept(Source(imgs[i]), dropLogos)
    ensures Resolve(base, Source(imgs[i]).value) in ImageUrls(base, imgs, dropLogos)
    decreases |imgs|
  {
    if i > 0 {
      ImageUrlsComplete(base, imgs[1..], dropLogos, i - 1);
      assert imgs[1..][i - 1] == imgs[i];
    }
  }

  /** Every listed URL is the resolved source of some kept image. */
  lemma {:induction false} ImageUrlsSound(base: string, imgs: seq<Node>, dropLogos: bool, u: string)
    requires u in ImageUrls(base, imgs, dropLogos)
    ensures exists i :: 0 <= i < |imgs| && Kept(Source(imgs[i]), dropLogos) && u == Resolve(base, Source(imgs[i]).value)
    decreases |imgs|
  {
    var src := Source(imgs[0]);
    if Kept(src, dropLogos) && u == Resolve(base, src.value) {
      assert 0 < |imgs| && Kept(Source(imgs[0]), dropLogos) && u == Resolve(base, Source(imgs[0]).value);
    } else {
      ImageUrlsSound(base, imgs[1..], dropLogos, u);
      var i :| 0 <= i < |imgs[1..]| && Kept(Source(imgs[1..][i]), dropLogos) && u == Resolve(base, Source(imgs[1..][i]).value);
      assert imgs[1..][i] == imgs[i + 1];
    }
  }

  /** Images from consecutive parts of a page come out in the same order:
      the list is built element by element, keeping order and duplicates. */
  lemma {:induction false} ImageUrlsAppend(base: string, a: seq<Node>, b: seq<Node>, dropLogos: bool)
    ensures ImageUrls(base, a + b, dropLogos) == ImageUrls(base, a, dropLogos) + ImageUrls(base, b, dropLogos)
    decreases |a|
  {
    if a == [] {
      assert a + b == b;
    } else {
      assert (a + b)[0] == a[0];
      assert (a + b)[1..] == a[1..] + b;
      ImageUrlsAppend(base, a[1..], b, dropLogos);
    }
  }

  /** The logo filter only ever removes images. */
  lemma {:induction false} LogoFilterDropsOnly(base: string, imgs: seq<Node>)
    ensures |ImageUrls(base, imgs, true)| <= |ImageUrls(base, imgs, false)|
    ensures forall u :: u in ImageUrls(base, imgs, true) ==> u in ImageUrls(base, imgs, false)
    decreases |imgs|
  {
    if imgs != [] {
      LogoFilterDropsOnly(base, imgs[1..]);
    }
    forall u | u in ImageUrls(base, imgs, true) ensures u in ImageUrls(base, imgs, false) {
      ImageUrlsSound(base, imgs, true, u);
      var i :| 0 <= i < |imgs| && Kept(Source(imgs[i]), true) && u == Resolve(base, Source(imgs[i]).value);
      ImageUrlsComplete(base, imgs, false, i);
    }
  }

  /** Resolving a non-empty source that does not end in `suffix` (a suffix
      with no slash in it) gives a URL that does not end in it either. */
  lemma ResolveKeepsSuffixOut(base: string, src: string, suffix: string)
    requires src != "" && !EndsWith(src, suffix)
    requires |suffix| > 0 && '/' !in suffix
    ensures !EndsWith(Resolve(base, src), suffix)
  {
    if !StartsWith(src, "http") {
      var b := TrimBase(base);
      var h := TrimHref(src);
      var r := Resolve(base, src);
      assert r == b + "/" + h;
      if |h| >= |suffix| {
        EndsWithTail(b + "/", h, suffix);
        EndsWithTail(src[..|src| - |h|], h, suffix);
        assert src[..|src| - |h|] + h == src;
      } else {
        EndsWithShortTail(b, h, suffix);
      }
    }
  }
}

/** The configuration of the userscript and the pure eligibility test
    `shouldProcessImage` (image-translator.js:18-24, 42-54). */
module Eligibility {
  import opened Wrappers

  /** `CONFIG.minWidth` and `CONFIG.minHeight`: the smallest natural size worth translating. */
  const MinWidth: int := 600
  const MinHeight: int := 800

  /** `CONFIG.maxConcurrent`: the most translations in flight at once. */
  const MaxConcurrent: nat := 3

  /** Distance in pixels by which the viewport is widened above and below. */
  const Buffer: int := 1000

  /** The values the script writes into the `data-translated` attribute.
      An element without the attribute has `translated == None`. */
  datatype Tag = Processing | Completed | Skipped

  /** What the script reads from, and writes to, one `<img>` element:
      its natural size, the top and bottom of its bounding box (in CSS
      pixels, rounded to integers), its `src` and its `data-translated`
      attribute. */
  datatype Element = Element(
    naturalWidth: int,
    naturalHeight: int,
    top: int,
    bottom: int,
    src: string,
    translated: Option<Tag>)

  /** The row `y` lies in the closed interval from `lo` to `hi`. */
  predicate Within(y: int, lo: int, hi: int)
  {
    lo <= y <= hi
  }

  predicate StartsWith(s: string, prefix: string)
  {
    |prefix| <= |s| && s[..|prefix|] == prefix
  }

  /** The dimension floor, which keeps icons and avatars out. */
  predicate LargeEnough(e: Element)
  {
    e.naturalWidth >= MinWidth && e.naturalHeight >= MinHeight
  }

  /** The bounding box reaches into the window that extends `Buffer` pixels
      above the top and below the bottom of a viewport `innerHeight` tall. */
  predicate NearViewport(e: Element, innerHeight: int)
  {
    e.bottom >= -Buffer && e.top <= innerHeight + Buffer
  }

  /** A source that can be fetched: a network URL or inline data. Anything
      else (an empty `src` of a lazily loaded image, a placeholder) is not. */
  predicate Fetchable(src: string)
  {
    StartsWith(src, "http") || StartsWith(src, "data:")
  }

  /** `shouldProcessImage`: all four rules at once. */
  function ShouldProcessImage(e: Element, innerHeight: int): (r: bool)
    ensures r ==> e.translated == None
    ensures r ==> e.naturalWidth >= MinWidth && e.naturalHeight >= MinHeight
    ensures r ==> |e.src| >= 4
  {
    LargeEnough(e) && e.translated == None && NearViewport(e, innerHeight) && Fetchable(e.src)
  }

  /** The viewport rule is the overlap of two closed intervals: a well-formed
      box passes exactly when some row of pixels lies both inside the box and
      inside the widened viewport. */
  lemma NearViewportIsOverlap(e: Element, innerHeight: int)
    requires e.top <= e.bottom && innerHeight >= 0
    ensures NearViewport(e, innerHeight) <==>
      exists y :: Within(y, e.top, e.bottom) && Within(y, -Buffer, innerHeight + Buffer)
  {
    if NearViewport(e, innerHeight) {
      var y := if e.top >= -Buffer then e.top else -Buffer;
      assert Within(y, e.top, e.bottom) && Within(y, -Buffer, innerHeight + Buffer);
    }
  }

  /** `shouldProcessImage` in full, for a bounding box whose bottom is not
      above its top and a viewport of non-negative height: the element is
      at least 600 by 800 pixels, has no `data-translated` attribute, some
      row of it lies within 1000 pixels of the viewport, and its `src`
      starts with `http` or `data:`. */
  lemma EligibleExactly(e: Element, innerHeight: int)
    requires e.top <= e.bottom && innerHeight >= 0
    ensures ShouldProcessImage(e, innerHeight) <==>
      && e.naturalWidth >= 600 && e.naturalHeight >= 800
      && e.translated == None
      && (exists y :: Within(y, e.top, e.bottom) && Within(y, -1000, innerHeight + 1000))
      && ((|e.src| >= 4 && e.src[..4] == "http") || (|e.src| >= 5 && e.src[..5] == "data:"))
  {
    NearViewportIsOverlap(e, innerHeight);
  }

  /** The source rule accepts `http:` and `https:` URLs and `data:` URIs,
      and refuses the empty `src` of an image whose real source has not been
      attached yet and `blob:` URLs (such as the ones the script itself
      installs). */
  lemma FetchableExamples()
    ensures Fetchable("https://example.org/a.png") && Fetchable("http://h/b.jpg")
    ensures Fetchable("data:image/png;base64,AAAA")
    ensures !Fetchable("") && !Fetchable("blob:https://h/1") && !Fetchable("about:blank")
  {
    assert "https://example.org/a.png"[..4] == "http";
    assert "http://h/b.jpg"[..4] == "http";
    assert "data:image/png;base64,AAAA"[..5] == "data:";
    assert "blob:https://h/1"[..4] != "http" by { assert "blob:https://h/1"[0] == 'b'; }
    assert "blob:https://h/1"[..5] != "data:" by { assert "blob:https://h/1"[0] == 'b'; }
    assert "about:blank"[..4] != "http" by { assert "about:blank"[0] == 'a'; }
    assert "about:blank"[..5] != "data:" by { assert "about:blank"[0] == 'a'; }
  }
}

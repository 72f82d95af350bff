/**
 * The highlight renderer: every circle the board widget draws on a square is
 * replaced by a `<highlight>` element of the extension's own, coloured from the
 * square palette and positioned by a percentage transform. The container is
 * cleared and rebuilt on every change of the widget's shape layer.
 */
module Highlights {
  import opened Wrappers
  import opened Defaults
  import opened Common
  import opened State
  import opened Scan

  /** The attributes of one widget `<circle>` the renderer reads. */
  datatype CircleShape = CircleShape(hash: Option<string>, stroke: Option<string>, opacity: Option<string>)

  /** `translate(X%,Y%)`, the two percentages as numbers. */
  datatype PercentTransform = Translate(xPct: int, yPct: int)

  /** One `<highlight>`: its `data-key`, background colour, opacity and transform. */
  datatype Highlight = Highlight(key: string, background: string, opacity: Option<real>, transform: PercentTransform)

  // ---------------------------------------------------------------------------
  // Reading a circle.

  /**
   * `getCircleKey` as written: no key without a non-empty `cgHash`; otherwise
   * the first token of `hash.match(keyRegex)`. When the hash holds no token the
   * match is `null`, and reading its `length` throws.
   */
  function CircleKeyAsWritten(hash: Option<string>): (r: Completion<Option<string>>)
    ensures (hash.None? || hash.value == "") ==> r == Normal(None)
    ensures hash.Some? && hash.value != "" && Tokens(hash.value) == [] ==> r.TypeError?
    ensures r.Normal? && r.value.Some? ==> hash.Some? && r.value.value == Tokens(hash.value)[0]
  {
    if hash.None? || hash.value == "" then Normal(None)
    else
      match Match(hash.value)
      case None => TypeError
      case Some(keys) => if |keys| == 0 then Normal(None) else Normal(Some(keys[0]))
  }

  /** A non-empty hash with no square in it makes `getCircleKey` throw. */
  lemma CircleKeyAsWrittenThrows()
    ensures CircleKeyAsWritten(Some("x")) == TypeError
  {
    assert Tokens("x") == [];
  }

  /**
   * `getCircleKey` with the missing-match case answered as the surrounding code
   * expects: no key when the hash is missing or holds no square token,
   * otherwise the first token.
   */
  function CircleKey(hash: Option<string>): (key: Option<string>)
    ensures key.Some? ==> hash.Some? && IsSquare(key.value)
  {
    if hash.None? then None
    else
      TokensAreSquares(hash.value);
      var keys := Tokens(hash.value);
      if keys == [] then None else Some(keys[0])
  }

  /**
   * A circle has a key exactly when some file letter of its hash is directly
   * followed by a rank digit, and the key is the leftmost such pair.
   */
  lemma CircleKeyLeftmost(hash: Option<string>)
    ensures CircleKey(hash).Some? <==> hash.Some? && LeftmostPair(hash.value) >= 0
    ensures CircleKey(hash).Some? ==>
      CircleKey(hash).value == hash.value[LeftmostPair(hash.value)..LeftmostPair(hash.value) + 2]
  {
    if hash.Some? {
      TokensFirst(hash.value);
    }
  }

  /** Wherever the code as written does not throw, it agrees with `CircleKey`. */
  lemma CircleKeyAgrees(hash: Option<string>)
    ensures CircleKeyAsWritten(hash).Normal? ==> CircleKeyAsWritten(hash).value == CircleKey(hash)
    ensures CircleKeyAsWritten(hash).TypeError? <==> hash.Some? && hash.value != "" && CircleKey(hash).None?
  {
    if hash.Some? {
      TokensFirst(hash.value);
    }
  }

  // ---------------------------------------------------------------------------
  // Building one highlight.

  /** `createTransform`: a square's grid position as percentages of a square's size. */
  function CreateTransform(key: string, flip: bool): (t: PercentTransform)
    ensures t.xPct % 100 == 0 && t.yPct % 100 == 0
    ensures |key| >= 2 && IsFile(key[0]) && IsRank(key[1]) ==> 0 <= t.xPct <= 700 && 0 <= t.yPct <= 700
  {
    var p := KeyToXY(key, flip);
    Translate(100 * p.x, 100 * p.y)
  }

  /**
   * A highlight is moved by whole squares, at most seven each way, and the
   * square it is drawn on can be read back from its transform.
   */
  lemma TransformLocatesSquare(key: string, flip: bool)
    requires IsSquare(key)
    ensures var t := CreateTransform(key, flip);
      0 <= t.xPct <= 700 && 0 <= t.yPct <= 700 &&
      t.xPct % 100 == 0 && t.yPct % 100 == 0 &&
      XYToKey(XY(t.xPct / 100, t.yPct / 100), flip) == key
  {
    KeyToXYOfSquare(key, flip);
    var p := KeyToXY(key, flip);
    assert XY(100 * p.x / 100, 100 * p.y / 100) == p;
    KeyRoundTrip(key, flip);
  }

  /** A circle is translucent (mid-drag) unless its `opacity` attribute is exactly "1". */
  predicate Translucent(circle: CircleShape) {
    circle.opacity != Some("1")
  }

  /**
   * The opacity a highlight gets: the square opacity, a quarter of it for a
   * translucent circle. An unset opacity stays unset (it renders as `NaN`).
   */
  function HighlightOpacity(base: Option<real>, translucent: bool): (o: Option<real>)
    ensures o.Some? <==> base.Some?
    ensures !translucent ==> o == base
    ensures translucent && base.Some? ==> o.value * 4.0 == base.value
  {
    if translucent && base.Some? then Some(base.value * 0.25) else base
  }

  /**
   * `createHighlight`: a highlight on `key` in the square colour of the
   * circle's stroke slot, with the square opacity (a quarter of it when the
   * circle is translucent), positioned on the square. `squares` and `opacity`
   * are the square palette and square opacity read from the colour state.
   */
  function CreateHighlight(key: string, circle: CircleShape, flip: bool, squares: Palette, opacity: Option<real>): (h: Highlight)
    ensures h.key == key && h.background == squares.At(StrokeNum(circle.stroke))
    ensures h.opacity.Some? <==> opacity.Some?
    ensures IsSquare(key) ==> 0 <= h.transform.xPct <= 700 && 0 <= h.transform.yPct <= 700
  {
    Highlight(key, squares.At(StrokeNum(circle.stroke)), HighlightOpacity(opacity, Translucent(circle)), CreateTransform(key, flip))
  }

  // ---------------------------------------------------------------------------
  // Rebuilding the container.

  /** The highlight one circle yields, if it has a key. */
  function HighlightOf(circle: CircleShape, flip: bool, squares: Palette, opacity: Option<real>): (h: Option<Highlight>)
    ensures h.Some? <==> CircleKey(circle.hash).Some?
    ensures h.Some? ==> h.value == CreateHighlight(CircleKey(circle.hash).value, circle, flip, squares, opacity)
  {
    match CircleKey(circle.hash)
    case None => None
    case Some(key) => Some(CreateHighlight(key, circle, flip, squares, opacity))
  }

  /** `HighlightOf` for a fixed orientation and square palette and opacity. */
  function HighlightFn(flip: bool, squares: Palette, opacity: Option<real>): CircleShape -> Option<Highlight> {
    c => HighlightOf(c, flip, squares, opacity)
  }

  /**
   * The highlights a rebuild leaves in the container: one per circle, in
   * circle order, up to the first circle without a key.
   */
  function HighlightsFor(circles: seq<CircleShape>, flip: bool, squares: Palette, opacity: Option<real>): seq<Highlight> {
    MapUntilNone(HighlightFn(flip, squares, opacity), circles, 0)
  }

  /** The i-th highlight of a rebuild comes from the i-th circle, which has a key. */
  lemma HighlightAt(circles: seq<CircleShape>, flip: bool, squares: Palette, opacity: Option<real>, i: int)
    requires 0 <= i < |HighlightsFor(circles, flip, squares, opacity)|
    ensures i < |circles|
    ensures HighlightOf(circles[i], flip, squares, opacity) == Some(HighlightsFor(circles, flip, squares, opacity)[i])
  {
    var f, hs := HighlightFn(flip, squares, opacity), HighlightsFor(circles, flip, squares, opacity);
    MapUntilNoneShape(f, circles, 0);
    assert f(circles[0 + i]) == Some(hs[i]);
  }

  /**
   * A rebuild yields at most one highlight per circle and stops exactly at the
   * first circle without a key.
   */
  lemma HighlightsStop(circles: seq<CircleShape>, flip: bool, squares: Palette, opacity: Option<real>)
    ensures |HighlightsFor(circles, flip, squares, opacity)| <= |circles|
    ensures |HighlightsFor(circles, flip, squares, opacity)| < |circles| ==>
      CircleKey(circles[|HighlightsFor(circles, flip, squares, opacity)|].hash).None?
  {
    var f, hs := HighlightFn(flip, squares, opacity), HighlightsFor(circles, flip, squares, opacity);
    MapUntilNoneShape(f, circles, 0);
    if |hs| < |circles| {
      assert f(circles[0 + |hs|]).None?;
    }
  }

  /** Every highlight sits on a square, carries that square as its key and is positioned on it. */
  lemma HighlightsOnSquares(circles: seq<CircleShape>, flip: bool, squares: Palette, opacity: Option<real>)
    ensures forall h :: h in HighlightsFor(circles, flip, squares, opacity) ==>
      IsSquare(h.key) && h.transform == CreateTransform(h.key, flip)
  {
    forall h | h in HighlightsFor(circles, flip, squares, opacity)
      ensures IsSquare(h.key) && h.transform == CreateTransform(h.key, flip)
    {
      MapUntilNoneImages(HighlightFn(flip, squares, opacity), circles, 0, h);
    }
  }

  /**
   * As written, a rebuild throws instead of returning: the first circle
   * without a key has a non-empty hash that holds no square.
   */
  predicate RebuildThrows(circles: seq<CircleShape>) {
    exists k :: 0 <= k < |circles| && CircleKeyAsWritten(circles[k].hash).TypeError? &&
      forall j :: 0 <= j < k ==> CircleKey(circles[j].hash).Some?
  }

  /**
   * Whether a rebuild throws is decided by the circle where it stops: it
   * throws exactly when that circle exists and its hash makes `getCircleKey`
   * throw.
   */
  lemma RebuildThrowsAt(circles: seq<CircleShape>, i: int)
    requires 0 <= i <= |circles|
    requires forall j :: 0 <= j < i ==> CircleKey(circles[j].hash).Some?
    requires i < |circles| ==> CircleKey(circles[i].hash).None?
    ensures RebuildThrows(circles) <==> i < |circles| && CircleKeyAsWritten(circles[i].hash).TypeError?
  {
    forall k | 0 <= k < |circles| && CircleKeyAsWritten(circles[k].hash).TypeError?
      ensures CircleKey(circles[k].hash).None?
    {
      CircleKeyAgrees(circles[k].hash);
    }
  }

  /** One step of a rebuild: the next circle ends it or adds its highlight. */
  lemma HighlightStep(done: seq<Highlight>, circles: seq<CircleShape>, flip: bool, squares: Palette, opacity: Option<real>,
                      i: int, h: Option<Highlight>)
    requires 0 <= i < |circles|
    requires done + MapUntilNone(HighlightFn(flip, squares, opacity), circles, i) == HighlightsFor(circles, flip, squares, opacity)
    requires h == HighlightOf(circles[i], flip, squares, opacity)
    ensures h.None? ==> done == HighlightsFor(circles, flip, squares, opacity)
    ensures h.Some? ==>
      (done + [h.value]) + MapUntilNone(HighlightFn(flip, squares, opacity), circles, i + 1) == HighlightsFor(circles, flip, squares, opacity)
  {
    var f := HighlightFn(flip, squares, opacity);
    assert f(circles[i]) == h;
    MapUntilNoneStep(done, f, circles, i);
  }

  /** The `div.fancyground-highlights` container of one board. */
  class HighlightLayer {
    var children: seq<Highlight>

    /** `createNewHighlightContainer`: an empty container. */
    constructor ()
      ensures children == []
    {
      children := [];
    }

    /**
     * The loop of `updateHighlights` over an emptied container: appends a
     * highlight per circle, in order, until the first circle without a key.
     */
    method Fill(circles: seq<CircleShape>, flip: bool, squares: Palette, opacity: Option<real>)
      returns (completed: bool)
      requires children == []
      modifies this
      ensures children == HighlightsFor(circles, flip, squares, opacity)
      ensures completed <==> !RebuildThrows(circles)
    {
      ghost var f := HighlightFn(flip, squares, opacity);
      assert children + MapUntilNone(f, circles, 0) == HighlightsFor(circles, flip, squares, opacity);
      var i := 0;
      while i < |circles|
        invariant 0 <= i <= |circles|
        invariant children + MapUntilNone(f, circles, i) == HighlightsFor(circles, flip, squares, opacity)
        invariant forall j :: 0 <= j < i ==> CircleKey(circles[j].hash).Some?
      {
        var h := HighlightOf(circles[i], flip, squares, opacity);
        HighlightStep(children, circles, flip, squares, opacity, i, h);
        if h.None? {
          completed := !CircleKeyAsWritten(circles[i].hash).TypeError?;
          RebuildThrowsAt(circles, i);
          return;
        }
        children := children + [h.value];
        i := i + 1;
      }
      assert children + [] == children;
      completed := true;
      RebuildThrowsAt(circles, i);
    }
  }

  /**
   * `updateHighlights`: uses the board's highlight container or creates one,
   * empties it, then appends a highlight per circle until the first circle
   * without a key, coloured from the square palette of `st`. The result
   * depends only on the circles, the orientation and the colour state, not on
   * what the container held, so rebuilding again without a change leaves it
   * as it is. `completed` is false when the rebuild ends by `getCircleKey`
   * throwing, as written, instead of returning.
   */
  method UpdateHighlights(existing: HighlightLayer?, circles: seq<CircleShape>, flip: bool, st: ColorState)
    returns (layer: HighlightLayer, completed: bool)
    requires st.Valid()
    modifies existing
    ensures existing != null ==> layer == existing
    ensures existing == null ==> fresh(layer)
    ensures layer.children == HighlightsFor(circles, flip, st.PaletteOf(Square), st.GetOpacity(Square))
    ensures completed <==> !RebuildThrows(circles)
  {
    if existing == null {
      layer := new HighlightLayer();
    } else {
      layer := existing;
    }
    layer.children := [];
    completed := layer.Fill(circles, flip, st.PaletteOf(Square), st.GetOpacity(Square));
  }

  /** A rebuilt highlight has the colour and opacity the state gives its circle. */
  lemma RebuiltHighlightColours(circles: seq<CircleShape>, flip: bool, st: ColorState, i: int)
    requires st.Valid()
    requires 0 <= i < |HighlightsFor(circles, flip, st.PaletteOf(Square), st.GetOpacity(Square))|
    ensures i < |circles|
    ensures var h := HighlightsFor(circles, flip, st.PaletteOf(Square), st.GetOpacity(Square))[i];
      h.background == st.GetColor(Square, StrokeNum(circles[i].stroke)) &&
      h.opacity == HighlightOpacity(st.squareOpacity, Translucent(circles[i])) &&
      Some(h.key) == CircleKey(circles[i].hash)
  {
    HighlightAt(circles, flip, st.PaletteOf(Square), st.GetOpacity(Square), i);
  }
}

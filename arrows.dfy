/**
 * The arrow renderer: every line the board widget draws is redrawn in the
 * extension's own `<svg>` layer, in the arrow colour of its stroke slot, with
 * an arrowhead marker of the same slot and, where a piece stands on the
 * arrow's origin square, a mask that hides the arrow behind that piece. The
 * layer is cleared and rebuilt on every change of the widget's shapes, and
 * patched in place when a colour or the arrow opacity changes.
 */
module Arrows {
  import opened Wrappers
  import opened Defaults
  import opened Common
  import opened State
  import opened Svg
  import opened ArrowDefs
  import opened Scan

  /**
   * The `stroke-width` attribute of a widget line as `Number` reads it:
   * missing, the empty string, text that is not a number, or a number.
   */
  datatype WidthAttr = Absent | Blank | NotANumber | Value(r: real)

  /** The attributes of one widget `<line>` the renderer reads. */
  datatype LineShape = LineShape(hash: Option<string>, stroke: Option<string>, opacity: Option<string>, width: WidthAttr)

  // ---------------------------------------------------------------------------
  // Reading a line.

  /**
   * `getArrowUci` as written: no move without a non-empty `cgHash`; otherwise
   * the first two tokens of `hash.match(keyRegex)`, or none when there are
   * fewer than two. When the hash holds no token at all the match is `null`,
   * and reading its `length` throws.
   */
  function ArrowUciAsWritten(hash: Option<string>): (r: Completion<Option<string>>)
    ensures (hash.None? || hash.value == "") ==> r == Normal(None)
    ensures hash.Some? && hash.value != "" && Tokens(hash.value) == [] ==> r.TypeError?
    ensures r.Normal? && r.value.Some? ==>
      hash.Some? && |Tokens(hash.value)| >= 2 && r.value.value == Tokens(hash.value)[0] + Tokens(hash.value)[1]
  {
    if hash.None? || hash.value == "" then Normal(None)
    else
      match Match(hash.value)
      case None => TypeError
      case Some(keys) => if |keys| < 2 then Normal(None) else Normal(Some(keys[0] + keys[1]))
  }

  /** A non-empty hash with no square in it makes `getArrowUci` throw. */
  lemma ArrowUciAsWrittenThrows()
    ensures ArrowUciAsWritten(Some("x")) == TypeError
  {
    assert Tokens("x") == [];
  }

  /**
   * `getArrowUci` with the missing-match case answered as the surrounding code
   * expects: the origin and destination squares run together, when the hash
   * holds at least two square tokens.
   */
  function ArrowUci(hash: Option<string>): (uci: Option<string>)
    ensures uci.Some? ==> hash.Some? && |uci.value| == 4 && IsSquare(uci.value[..2]) && IsSquare(uci.value[2..])
  {
    if hash.None? then None
    else
      TokensAreSquares(hash.value);
      var keys := Tokens(hash.value);
      if |keys| < 2 then None
      else
        assert IsSquare(keys[0]) && IsSquare(keys[1]);
        assert (keys[0] + keys[1])[..2] == keys[0] && (keys[0] + keys[1])[2..] == keys[1];
        Some(keys[0] + keys[1])
  }

  /**
   * A line has a move exactly when its hash holds at least two square tokens,
   * and the move is the first two of them; wherever the code as written does
   * not throw, it agrees.
   */
  lemma ArrowUciTokens(hash: Option<string>)
    ensures ArrowUci(hash).Some? <==> hash.Some? && |Tokens(hash.value)| >= 2
    ensures ArrowUci(hash).Some? ==> ArrowUci(hash).value == Tokens(hash.value)[0] + Tokens(hash.value)[1]
    ensures ArrowUciAsWritten(hash).Normal? ==> ArrowUciAsWritten(hash).value == ArrowUci(hash)
    ensures ArrowUciAsWritten(hash).TypeError? <==> hash.Some? && hash.value != "" && Tokens(hash.value) == []
  {
  }

  /**
   * `getArrowWidth`: no width for a missing, empty or non-numeric attribute;
   * the widget's own arrow width 0.1328125 is undone to 0.15625; any other
   * width is kept.
   */
  function ArrowWidth(w: WidthAttr): (width: Option<real>)
    ensures width.None? <==> !w.Value?
    ensures w.Value? && w.r == 0.1328125 ==> width == Some(0.15625)
    ensures w.Value? && w.r != 0.1328125 ==> width == Some(w.r)
  {
    match w
    case Absent => None
    case Blank => None
    case NotANumber => None
    case Value(r) => if r == 0.1328125 then Some(0.15625) else Some(r)
  }

  /** Reading back a width the renderer produced leaves it as it is. */
  lemma ArrowWidthIdempotent(w: WidthAttr)
    requires w.Value?
    ensures ArrowWidth(Value(ArrowWidth(w).value)) == ArrowWidth(w)
  {
  }

  /**
   * `uciToCoords`: the tail is the grid position of the first two characters,
   * the tip that of the characters from the third on, both in the same
   * orientation.
   */
  function UciToCoords(uci: string, flip: bool): (c: Coords)
    ensures |uci| == 4 && IsSquare(uci[..2]) && IsSquare(uci[2..]) ==>
      0 <= c.x1 <= 7 && 0 <= c.y1 <= 7 && 0 <= c.x2 <= 7 && 0 <= c.y2 <= 7
  {
    var tail := KeyToXY(uci, flip);
    var tip := KeyToXY(if |uci| >= 2 then uci[2..] else "", flip);
    Coords(tail.x, tail.y, tip.x, tip.y)
  }

  /**
   * For a move, the tail is the origin square's position and the tip the
   * destination's; both lie on the board, and seen from Black's side both
   * ends are mirrored.
   */
  lemma UciToCoordsOfMove(uci: string, flip: bool)
    requires |uci| == 4 && IsSquare(uci[..2]) && IsSquare(uci[2..])
    ensures var c := UciToCoords(uci, flip);
      XY(c.x1, c.y1) == KeyToXY(uci[..2], flip) && XY(c.x2, c.y2) == KeyToXY(uci[2..], flip)
    ensures var c := UciToCoords(uci, flip);
      0 <= c.x1 <= 7 && 0 <= c.y1 <= 7 && 0 <= c.x2 <= 7 && 0 <= c.y2 <= 7
    ensures var c, d := UciToCoords(uci, flip), UciToCoords(uci, !flip);
      c.x1 == 7 - d.x1 && c.y1 == 7 - d.y1 && c.x2 == 7 - d.x2 && c.y2 == 7 - d.y2
  {
    KeyToXYOfSquare(uci[..2], flip);
    KeyToXYOfSquare(uci[2..], flip);
  }

  // ---------------------------------------------------------------------------
  // Building one arrow.

  /**
   * `createArrow`: a line along `segment` ending in the arrowhead `cap`, in
   * the arrow colour of `colorNum` and tagged with it, carrying the widget
   * line's opacity attribute, and a stroke width only when one is given and
   * it is not zero. `arrows` is the arrow palette read from the colour state.
   */
  function CreateArrow(segment: Coords, cap: string, colorNum: ColorNum, arrows: Palette, opacity: Option<string>, width: Option<real>): (a: ArrowLine)
    ensures a.tag == colorNum && a.stroke == arrows.At(colorNum)
    ensures a.strokeWidth.Some? <==> width.Some? && width.value != 0.0
    ensures a.strokeWidth.Some? ==> a.strokeWidth == width
    ensures a.mask.None?
  {
    var w := if width.Some? && width.value != 0.0 then width else None;
    ArrowLine(segment, cap, arrows.At(colorNum), w, opacity, colorNum, None)
  }

  /** The mask attribute `url(#id)` of an arrow whose mask has id `id`. */
  function MaskUrl(id: string): string {
    "url(#" + id + ")"
  }

  /** What one widget line adds to the layer: mask nodes at the front, a line at the back. */
  datatype ArrowPart = ArrowPart(masks: seq<SvgNode>, line: ArrowLine)

  /**
   * One pass of the `updateArrows` loop for a line with a move: the mask of
   * the piece on the origin square, if any, and the arrow, in the arrow
   * colour and marker of its stroke slot, masked when a mask was made.
   */
  function ArrowOf(line: LineShape, flip: bool, maskAt: string -> Option<string>, prefix: string, arrows: Palette): (p: Option<ArrowPart>)
    ensures p.Some? <==> ArrowUci(line.hash).Some?
    ensures p.Some? ==> p.value.line.stroke == arrows.At(p.value.line.tag)
    ensures p.Some? ==> forall j :: 0 <= j < |p.value.masks| ==> IsMaskPart(p.value.masks[j])
  {
    match ArrowUci(line.hash)
    case None => None
    case Some(uci) =>
      var colorNum := StrokeNum(line.stroke);
      var origin := uci[..2];
      var src := maskAt(origin);
      var masks := if src.Some? then MaskNodes(origin, flip, prefix, src.value) else [];
      var arrow := CreateArrow(UciToCoords(uci, flip), GetCap(prefix, colorNum), colorNum, arrows, line.opacity, ArrowWidth(line.width));
      Some(ArrowPart(masks, if src.Some? then arrow.(mask := Some(MaskUrl(prefix + origin))) else arrow))
  }

  /**
   * The arrow of a line with a move: tagged with the line's stroke slot,
   * coloured from it, ending in that slot's marker, drawn from the origin to
   * the destination square; masked by the piece on the origin square exactly
   * when one with an image stands there.
   */
  lemma ArrowOfSpec(line: LineShape, flip: bool, maskAt: string -> Option<string>, prefix: string, arrows: Palette)
    requires ArrowUci(line.hash).Some?
    ensures var uci, p := ArrowUci(line.hash).value, ArrowOf(line, flip, maskAt, prefix, arrows).value;
      p.line.tag == StrokeNum(line.stroke) &&
      p.line.stroke == arrows.At(p.line.tag) &&
      p.line.markerEnd == GetCap(prefix, StrokeNum(line.stroke)) &&
      p.line.segment == UciToCoords(uci, flip) &&
      p.line.opacity == line.opacity &&
      (p.line.mask.Some? <==> maskAt(uci[..2]).Some?) &&
      (p.line.mask.Some? ==>
         p.line.mask.value == MaskUrl(prefix + uci[..2]) &&
         p.masks == MaskNodes(uci[..2], flip, prefix, maskAt(uci[..2]).value)) &&
      (p.line.mask.None? ==> p.masks == [])
  {
  }

  // ---------------------------------------------------------------------------
  // Rebuilding the layer.

  /** `ArrowOf` for a fixed flip, maskAt, prefix and arrow palette. */
  function ArrowFn(flip: bool, maskAt: string -> Option<string>, prefix: string, arrows: Palette): LineShape -> Option<ArrowPart> {
    l => ArrowOf(l, flip, maskAt, prefix, arrows)
  }

  /** The arrows a rebuild draws: one per line, in line order, up to the first line without a move. */
  function ArrowsFor(lines: seq<LineShape>, flip: bool, maskAt: string -> Option<string>, prefix: string, arrows: Palette): seq<ArrowPart> {
    MapUntilNone(ArrowFn(flip, maskAt, prefix, arrows), lines, 0)
  }

  /** The mask nodes of `parts`, each part's in front of those of the parts before it. */
  function MasksOf(parts: seq<ArrowPart>): seq<SvgNode>
    decreases |parts|
  {
    if parts == [] then [] else parts[|parts| - 1].masks + MasksOf(parts[..|parts| - 1])
  }

  /** The lines of `parts`, in order. */
  function LinesOf(parts: seq<ArrowPart>): (nodes: seq<SvgNode>)
    ensures |nodes| == |parts|
    ensures forall k :: 0 <= k < |parts| ==> nodes[k] == LineNode(parts[k].line)
    decreases |parts|
  {
    if parts == [] then [] else LinesOf(parts[..|parts| - 1]) + [LineNode(parts[|parts| - 1].line)]
  }

  /** The layer after drawing `parts`: every mask, then the marker defs, then every line. */
  function Layer(parts: seq<ArrowPart>, markers: seq<Marker>): seq<SvgNode> {
    MasksOf(parts) + [DefsNode(markers)] + LinesOf(parts)
  }

  /** Drawing one more part puts its masks at the front and its line at the back. */
  lemma LayerAppend(parts: seq<ArrowPart>, p: ArrowPart, markers: seq<Marker>)
    ensures Layer(parts + [p], markers) == p.masks + Layer(parts, markers) + [LineNode(p.line)]
  {
    var ps := parts + [p];
    assert ps[..|ps| - 1] == parts;
    assert MasksOf(ps) == p.masks + MasksOf(parts);
    assert LinesOf(ps) == LinesOf(parts) + [LineNode(p.line)];
  }

  /** One pass of the `updateArrows` loop, in terms of the layer so far and the parts still to come. */
  lemma LayerStep<A>(before: seq<SvgNode>, after: seq<SvgNode>, done: seq<ArrowPart>, p: ArrowPart, markers: seq<Marker>,
                     f: A -> Option<ArrowPart>, xs: seq<A>, i: nat)
    requires i < |xs| && f(xs[i]) == Some(p)
    requires done + MapUntilNone(f, xs, i) == MapUntilNone(f, xs, 0)
    requires before == Layer(done, markers)
    requires after == p.masks + before + [LineNode(p.line)]
    ensures (done + [p]) + MapUntilNone(f, xs, i + 1) == MapUntilNone(f, xs, 0)
    ensures after == Layer(done + [p], markers)
  {
    MapUntilNoneStep(done, f, xs, i);
    LayerAppend(done, p, markers);
  }

  /** The layer `updateArrows` leaves. */
  function ArrowLayer(lines: seq<LineShape>, flip: bool, maskAt: string -> Option<string>, prefix: string, markers: seq<Marker>, arrows: Palette): seq<SvgNode> {
    Layer(ArrowsFor(lines, flip, maskAt, prefix, arrows), markers)
  }

  /** The i-th arrow of a rebuild comes from the i-th line, which has a move. */
  lemma ArrowAt(lines: seq<LineShape>, flip: bool, maskAt: string -> Option<string>, prefix: string, arrows: Palette, i: int)
    requires 0 <= i < |ArrowsFor(lines, flip, maskAt, prefix, arrows)|
    ensures i < |lines|
    ensures ArrowOf(lines[i], flip, maskAt, prefix, arrows) == Some(ArrowsFor(lines, flip, maskAt, prefix, arrows)[i])
  {
    var f, ps := ArrowFn(flip, maskAt, prefix, arrows), ArrowsFor(lines, flip, maskAt, prefix, arrows);
    MapUntilNoneShape(f, lines, 0);
    assert f(lines[0 + i]) == Some(ps[i]);
  }

  /**
   * A rebuild draws at most one arrow per line and stops exactly at the first
   * line without a move (where the code throws).
   */
  lemma ArrowsStop(lines: seq<LineShape>, flip: bool, maskAt: string -> Option<string>, prefix: string, arrows: Palette)
    ensures |ArrowsFor(lines, flip, maskAt, prefix, arrows)| <= |lines|
    ensures |ArrowsFor(lines, flip, maskAt, prefix, arrows)| < |lines| ==>
      ArrowUci(lines[|ArrowsFor(lines, flip, maskAt, prefix, arrows)|].hash).None?
  {
    var f, ps := ArrowFn(flip, maskAt, prefix, arrows), ArrowsFor(lines, flip, maskAt, prefix, arrows);
    MapUntilNoneShape(f, lines, 0);
    if |ps| < |lines| {
      assert f(lines[0 + |ps|]).None?;
    }
  }

  /** Mask nodes are only masks and filters. */
  predicate IsMaskPart(n: SvgNode) {
    n.MaskNode? || n.FilterNode?
  }

  /** Parts that bring only mask nodes keep the front of the layer free of lines and defs. */
  lemma {:induction false} MasksOfMaskParts(parts: seq<ArrowPart>)
    requires forall k, j :: 0 <= k < |parts| && 0 <= j < |parts[k].masks| ==> IsMaskPart(parts[k].masks[j])
    ensures forall j :: 0 <= j < |MasksOf(parts)| ==> IsMaskPart(MasksOf(parts)[j])
    decreases |parts|
  {
    if parts != [] {
      var last, init := parts[|parts| - 1], parts[..|parts| - 1];
      MasksOfMaskParts(init);
      forall j | 0 <= j < |MasksOf(parts)| ensures IsMaskPart(MasksOf(parts)[j]) {
        if j < |last.masks| {
          assert MasksOf(parts)[j] == last.masks[j];
        } else {
          assert MasksOf(parts)[j] == MasksOf(init)[j - |last.masks|];
        }
      }
    }
  }

  /**
   * The rebuilt layer: masks (and their filters) first, then the marker defs,
   * then one line per drawn arrow in line order; nothing else.
   */
  lemma ArrowLayerShape(lines: seq<LineShape>, flip: bool, maskAt: string -> Option<string>, prefix: string, markers: seq<Marker>, arrows: Palette)
    ensures var ps, layer, m := ArrowsFor(lines, flip, maskAt, prefix, arrows), ArrowLayer(lines, flip, maskAt, prefix, markers, arrows), |MasksOf(ArrowsFor(lines, flip, maskAt, prefix, arrows))|;
      |layer| == m + 1 + |ps| &&
      (forall j :: 0 <= j < m ==> IsMaskPart(layer[j])) &&
      layer[m] == DefsNode(markers) &&
      (forall k :: 0 <= k < |ps| ==> layer[m + 1 + k] == LineNode(ps[k].line))
  {
    ArrowsForParts(lines, flip, maskAt, prefix, arrows);
    LayerParts(ArrowsFor(lines, flip, maskAt, prefix, arrows), markers);
  }

  /** The layer of parts whose masks are only masks and filters. */
  lemma LayerParts(ps: seq<ArrowPart>, markers: seq<Marker>)
    requires forall k, j :: 0 <= k < |ps| && 0 <= j < |ps[k].masks| ==> IsMaskPart(ps[k].masks[j])
    ensures var layer, m := Layer(ps, markers), |MasksOf(ps)|;
      |layer| == m + 1 + |ps| &&
      (forall j :: 0 <= j < m ==> IsMaskPart(layer[j])) &&
      layer[m] == DefsNode(markers) &&
      (forall k :: 0 <= k < |ps| ==> layer[m + 1 + k] == LineNode(ps[k].line))
  {
    MasksOfMaskParts(ps);
    var masks, ls, layer := MasksOf(ps), LinesOf(ps), Layer(ps, markers);
    var m := |masks|;
    assert layer == masks + [DefsNode(markers)] + ls;
    forall j | 0 <= j < m ensures IsMaskPart(layer[j]) {
      assert layer[j] == masks[j];
    }
    forall k | 0 <= k < |ps| ensures layer[m + 1 + k] == LineNode(ps[k].line) {
      assert layer[m + 1 + k] == ls[k];
    }
  }

  /**
   * Every arrow of a rebuild brings only masks and filters to the front, and
   * its line shows its tag's colour.
   */
  lemma ArrowsForParts(lines: seq<LineShape>, flip: bool, maskAt: string -> Option<string>, prefix: string, arrows: Palette)
    ensures var ps := ArrowsFor(lines, flip, maskAt, prefix, arrows);
      forall k, j :: 0 <= k < |ps| && 0 <= j < |ps[k].masks| ==> IsMaskPart(ps[k].masks[j])
    ensures var ps := ArrowsFor(lines, flip, maskAt, prefix, arrows);
      forall k :: 0 <= k < |ps| ==> ps[k].line.stroke == arrows.At(ps[k].line.tag)
  {
    var ps := ArrowsFor(lines, flip, maskAt, prefix, arrows);
    forall k | 0 <= k < |ps|
      ensures forall j :: 0 <= j < |ps[k].masks| ==> IsMaskPart(ps[k].masks[j])
      ensures ps[k].line.stroke == arrows.At(ps[k].line.tag)
    {
      ArrowAt(lines, flip, maskAt, prefix, arrows, k);
    }
  }

  // ---------------------------------------------------------------------------
  // Colours in the layer.

  /** A node shows the colours of `arrows`: a line its tag's colour, every marker its tag's colour. */
  predicate NodeInSync(n: SvgNode, arrows: Palette) {
    match n
    case LineNode(l) => l.stroke == arrows.At(l.tag)
    case DefsNode(ms) => forall k :: 0 <= k < |ms| ==> ms[k].fill == arrows.At(ms[k].tag)
    case _ => true
  }

  predicate InSync(nodes: seq<SvgNode>, arrows: Palette) {
    forall j :: 0 <= j < |nodes| ==> NodeInSync(nodes[j], arrows)
  }

  /** A rebuilt layer shows exactly the arrow colours of the state it was built from. */
  lemma RebuiltLayerInSync(lines: seq<LineShape>, flip: bool, maskAt: string -> Option<string>, prefix: string, st: ColorState)
    requires st.Valid()
    ensures InSync(ArrowLayer(lines, flip, maskAt, prefix, DefsFor(prefix, st), st.PaletteOf(Arrow)), st.PaletteOf(Arrow))
  {
    var arrows, markers := st.PaletteOf(Arrow), DefsFor(prefix, st);
    assert NodeInSync(DefsNode(markers), arrows);
    ArrowsForParts(lines, flip, maskAt, prefix, arrows);
    LayerInSync(ArrowsFor(lines, flip, maskAt, prefix, arrows), markers, arrows);
  }

  /** Parts whose lines show their tags' colours, under defs in sync, make a layer in sync. */
  lemma LayerInSync(ps: seq<ArrowPart>, markers: seq<Marker>, arrows: Palette)
    requires forall k, j :: 0 <= k < |ps| && 0 <= j < |ps[k].masks| ==> IsMaskPart(ps[k].masks[j])
    requires forall k :: 0 <= k < |ps| ==> ps[k].line.stroke == arrows.At(ps[k].line.tag)
    requires NodeInSync(DefsNode(markers), arrows)
    ensures InSync(Layer(ps, markers), arrows)
  {
    MasksOfMaskParts(ps);
    var masks, ls := MasksOf(ps), LinesOf(ps);
    var layer, m := Layer(ps, markers), |masks|;
    assert layer == masks + [DefsNode(markers)] + ls;
    forall j | 0 <= j < |layer| ensures NodeInSync(layer[j], arrows) {
      if j < m {
        assert layer[j] == masks[j] && IsMaskPart(masks[j]);
      } else if j > m {
        assert layer[j] == ls[j - m - 1] == LineNode(ps[j - m - 1].line);
      }
    }
  }

  /** `updateArrowColor` on one node: slot `n`'s lines and markers take colour `c`. */
  function RecolorNode(node: SvgNode, n: Num, c: string): (r: SvgNode) {
    match node
    case LineNode(l) => if l.tag == n then LineNode(l.(stroke := c)) else node
    case DefsNode(ms) => DefsNode(RecolorMarkers(ms, n, c))
    case _ => node
  }

  /** The path fills of the markers of slot `n` set to `c`. */
  function RecolorMarkers(ms: seq<Marker>, n: Num, c: string): (r: seq<Marker>)
    ensures |r| == |ms|
    ensures forall k :: 0 <= k < |ms| ==> r[k] == if ms[k].tag == n then ms[k].(fill := c) else ms[k]
    decreases |ms|
  {
    if ms == [] then []
    else [if ms[0].tag == n then ms[0].(fill := c) else ms[0]] + RecolorMarkers(ms[1..], n, c)
  }

  /** `RecolorNode` on every node. */
  function Recolored(nodes: seq<SvgNode>, n: Num, c: string): (r: seq<SvgNode>)
    ensures |r| == |nodes|
    ensures forall j :: 0 <= j < |nodes| ==> r[j] == RecolorNode(nodes[j], n, c)
    decreases |nodes|
  {
    if nodes == [] then [] else [RecolorNode(nodes[0], n, c)] + Recolored(nodes[1..], n, c)
  }

  /**
   * A patch touches only what is tagged with its slot: a line of another slot
   * and every mask or filter are left as they are; a line of the slot changes
   * only its stroke, a marker only its fill.
   */
  lemma RecolorFrame(node: SvgNode, n: Num, c: string)
    ensures node.LineNode? && node.line.tag != n ==> RecolorNode(node, n, c) == node
    ensures node.LineNode? && node.line.tag == n ==> RecolorNode(node, n, c) == LineNode(node.line.(stroke := c))
    ensures node.MaskNode? || node.FilterNode? ==> RecolorNode(node, n, c) == node
    ensures node.DefsNode? ==>
      RecolorNode(node, n, c).DefsNode? &&
      |RecolorNode(node, n, c).markers| == |node.markers| &&
      forall k :: 0 <= k < |node.markers| ==>
        RecolorNode(node, n, c).markers[k] == if node.markers[k].tag == n then node.markers[k].(fill := c) else node.markers[k]
  {
  }

  /** Patching the same colour twice is the same as patching it once. */
  lemma RecolorIdempotent(nodes: seq<SvgNode>, n: Num, c: string)
    ensures Recolored(Recolored(nodes, n, c), n, c) == Recolored(nodes, n, c)
  {
    var once, twice := Recolored(nodes, n, c), Recolored(Recolored(nodes, n, c), n, c);
    forall j | 0 <= j < |nodes| ensures twice[j] == once[j] {
      if nodes[j].DefsNode? {
        var ms := nodes[j].markers;
        assert RecolorMarkers(RecolorMarkers(ms, n, c), n, c) == RecolorMarkers(ms, n, c);
      }
    }
  }

  /**
   * A layer in sync with the arrow palette is still in sync after slot `n`
   * is set to `c` in both the palette and the layer: the patch is all a
   * colour change needs.
   */
  lemma RecolorKeepsSync(nodes: seq<SvgNode>, arrows: Palette, n: Num, c: string)
    requires InSync(nodes, arrows)
    ensures InSync(Recolored(nodes, n, c), arrows.With(n, c))
  {
    var r, p := Recolored(nodes, n, c), arrows.With(n, c);
    forall j | 0 <= j < |r| ensures NodeInSync(r[j], p) {
      assert NodeInSync(nodes[j], arrows);
    }
  }

  /** `updateArrowColorAll` on one node: lines and markers take their tag's colour. */
  function SyncNode(node: SvgNode, arrows: Palette): (r: SvgNode) {
    match node
    case LineNode(l) => LineNode(l.(stroke := arrows.At(l.tag)))
    case DefsNode(ms) => DefsNode(SyncMarkers(ms, arrows))
    case _ => node
  }

  function SyncMarkers(ms: seq<Marker>, arrows: Palette): (r: seq<Marker>)
    ensures |r| == |ms|
    ensures forall k :: 0 <= k < |ms| ==> r[k] == ms[k].(fill := arrows.At(ms[k].tag))
    decreases |ms|
  {
    if ms == [] then [] else [ms[0].(fill := arrows.At(ms[0].tag))] + SyncMarkers(ms[1..], arrows)
  }

  /** `SyncNode` on every node. */
  function Synced(nodes: seq<SvgNode>, arrows: Palette): (r: seq<SvgNode>)
    ensures |r| == |nodes|
    ensures forall j :: 0 <= j < |nodes| ==> r[j] == SyncNode(nodes[j], arrows)
    decreases |nodes|
  {
    if nodes == [] then [] else [SyncNode(nodes[0], arrows)] + Synced(nodes[1..], arrows)
  }

  /**
   * A full resync leaves the layer in sync with the palette, changes nothing
   * but strokes and fills, and changes nothing at all in a layer already in
   * sync.
   */
  lemma SyncedSpec(nodes: seq<SvgNode>, arrows: Palette)
    ensures InSync(Synced(nodes, arrows), arrows)
    ensures forall j :: 0 <= j < |nodes| ==> Synced(nodes, arrows)[j].LineNode? == nodes[j].LineNode?
    ensures forall j :: 0 <= j < |nodes| && nodes[j].LineNode? ==>
      Synced(nodes, arrows)[j].line.(stroke := nodes[j].line.stroke) == nodes[j].line
    ensures InSync(nodes, arrows) ==> Synced(nodes, arrows) == nodes
  {
    var r := Synced(nodes, arrows);
    if InSync(nodes, arrows) {
      forall j | 0 <= j < |nodes| ensures r[j] == nodes[j] {
        assert NodeInSync(nodes[j], arrows);
        if nodes[j].DefsNode? {
          assert SyncMarkers(nodes[j].markers, arrows) == nodes[j].markers;
        }
      }
    }
  }

  /**
   * On a layer in sync with the palette, patching slot `n` to `c` gives what
   * a full resync to the palette with slot `n` set to `c` gives.
   */
  lemma RecolorIsResync(nodes: seq<SvgNode>, arrows: Palette, n: Num, c: string)
    requires InSync(nodes, arrows)
    ensures Recolored(nodes, n, c) == Synced(nodes, arrows.With(n, c))
  {
    var r, s, p := Recolored(nodes, n, c), Synced(nodes, arrows.With(n, c)), arrows.With(n, c);
    forall j | 0 <= j < |nodes| ensures r[j] == s[j] {
      assert NodeInSync(nodes[j], arrows);
      if nodes[j].DefsNode? {
        var ms := nodes[j].markers;
        assert RecolorMarkers(ms, n, c) == SyncMarkers(ms, p);
      }
    }
  }

  // ---------------------------------------------------------------------------
  // The operations on a board's layer.

  /** What `createMask` finds on each square of a board: the image URL of the piece standing there. */
  function MaskFn(board: BoardView): string -> Option<string> {
    k => MaskSource(k, board)
  }

  /**
   * The body of the `updateArrows` loop for a line with a move: the mask of
   * the piece on the origin square goes to the front of the layer, the arrow
   * to the back, as `ArrowOf` says.
   */
  method DrawArrow(svg: ArrowSvg, line: LineShape, uci: string, board: BoardView, prefix: string, arrows: Palette)
    requires ArrowUci(line.hash) == Some(uci)
    modifies svg
    ensures svg.opacity == old(svg.opacity)
    ensures var p := ArrowOf(line, board.flip, MaskFn(board), prefix, arrows);
      p.Some? && svg.children == p.value.masks + old(svg.children) + [LineNode(p.value.line)]
  {
    var colorNum := StrokeNum(line.stroke);
    var coords := UciToCoords(uci, board.flip);
    var maskId := CreateMask(svg, uci[..2], board, prefix);
    var arrow := CreateArrow(coords, GetCap(prefix, colorNum), colorNum, arrows, line.opacity, ArrowWidth(line.width));
    if maskId.Some? {
      arrow := arrow.(mask := Some(MaskUrl(maskId.value)));
    }
    svg.children := svg.children + [LineNode(arrow)];
  }

  /**
   * `updateArrows`: uses the board's layer or creates one at the arrow
   * opacity, empties it, puts the marker defs in it, then draws one arrow per
   * widget line until the first line without a move, where the code throws
   * (`completed` is false). Each arrow's masks go to the front of the layer,
   * its line to the back.
   */
  method UpdateArrows(existing: ArrowSvg?, lines: seq<LineShape>, board: BoardView, prefix: string, st: ColorState)
    returns (svg: ArrowSvg, completed: bool)
    requires st.Valid()
    modifies existing
    ensures existing != null ==> svg == existing && svg.opacity == old(existing.opacity)
    ensures existing == null ==> fresh(svg) && svg.opacity == st.GetOpacity(Arrow)
    ensures svg.children == ArrowLayer(lines, board.flip, MaskFn(board), prefix, DefsFor(prefix, st), st.PaletteOf(Arrow))
    ensures completed <==> |ArrowsFor(lines, board.flip, MaskFn(board), prefix, st.PaletteOf(Arrow))| == |lines|
  {
    if existing == null {
      svg := new ArrowSvg(st.GetOpacity(Arrow));
    } else {
      svg := existing;
    }
    ghost var opacity := svg.opacity;
    svg.children := [];
    var markers := CreateDefs(prefix, st);
    svg.children := [DefsNode(markers)] + svg.children;
    var arrows := st.PaletteOf(Arrow);
    ghost var f := ArrowFn(board.flip, MaskFn(board), prefix, arrows);
    ghost var done: seq<ArrowPart> := [];
    assert svg.children == Layer(done, markers);
    assert done + MapUntilNone(f, lines, 0) == MapUntilNone(f, lines, 0);
    var i := 0;
    while i < |lines|
      invariant 0 <= i <= |lines|
      invariant existing != null ==> svg == existing
      invariant existing == null ==> fresh(svg)
      invariant svg.opacity == opacity
      invariant done + MapUntilNone(f, lines, i) == MapUntilNone(f, lines, 0)
      invariant |done| == i
      invariant svg.children == Layer(done, markers)
    {
      var uci := ArrowUci(lines[i].hash);
      if uci.None? {
        MapUntilNoneStep(done, f, lines, i);
        return svg, false;
      }
      ghost var before := svg.children;
      DrawArrow(svg, lines[i], uci.value, board, prefix, arrows);
      ghost var p := f(lines[i]).value;
      LayerStep(before, svg.children, done, p, markers, f, lines, i);
      done := done + [p];
      i := i + 1;
    }
    assert MapUntilNone(f, lines, i) == [];
    assert done == MapUntilNone(f, lines, 0);
    completed := true;
  }

  /**
   * `updateArrowColor`: every line of slot `n` takes stroke `c`, then every
   * marker path of slot `n` takes fill `c`; a board without a layer has no
   * such elements, and nothing changes.
   */
  method UpdateArrowColor(svg: ArrowSvg?, n: Num, c: string)
    modifies svg
    ensures svg != null ==> svg.opacity == old(svg.opacity) && svg.children == Recolored(old(svg.children), n, c)
  {
    if svg == null {
      return;
    }
    ghost var before := svg.children;
    // the lines
    var j := 0;
    while j < |svg.children|
      invariant 0 <= j <= |svg.children| == |before|
      invariant svg.opacity == old(svg.opacity)
      invariant forall k :: 0 <= k < j ==> svg.children[k] == if before[k].DefsNode? then before[k] else RecolorNode(before[k], n, c)
      invariant forall k :: j <= k < |before| ==> svg.children[k] == before[k]
    {
      var node := svg.children[j];
      if node.LineNode? && node.line.tag == n {
        svg.children := svg.children[j := LineNode(node.line.(stroke := c))];
      }
      j := j + 1;
    }
    // the arrowheads
    j := 0;
    while j < |svg.children|
      invariant 0 <= j <= |svg.children| == |before|
      invariant svg.opacity == old(svg.opacity)
      invariant forall k :: 0 <= k < j ==> svg.children[k] == RecolorNode(before[k], n, c)
      invariant forall k :: j <= k < |before| ==> svg.children[k] == if before[k].DefsNode? then before[k] else RecolorNode(before[k], n, c)
    {
      var node := svg.children[j];
      if node.DefsNode? {
        svg.children := svg.children[j := DefsNode(RecolorMarkers(node.markers, n, c))];
      }
      j := j + 1;
    }
    assert svg.children == Recolored(before, n, c);
  }

  /**
   * `updateArrowColorAll`: every line takes the arrow colour of its tag, then
   * every marker path the arrow colour of its tag.
   */
  method UpdateArrowColorAll(svg: ArrowSvg?, st: ColorState)
    requires st.Valid()
    modifies svg
    ensures svg != null ==> svg.opacity == old(svg.opacity) && svg.children == Synced(old(svg.children), st.PaletteOf(Arrow))
  {
    if svg == null {
      return;
    }
    ghost var before := svg.children;
    SyncLines(svg, st);
    SyncMarkerPaths(svg, st);
    assert svg.children == Synced(before, st.PaletteOf(Arrow));
  }

  /** A node after the first loop of `updateArrowColorAll`: lines resynced, everything else as it was. */
  function LineSynced(node: SvgNode, arrows: Palette): (r: SvgNode)
    ensures SyncNode(r, arrows) == SyncNode(node, arrows)
  {
    if node.LineNode? then SyncNode(node, arrows) else node
  }

  /** The first loop of `updateArrowColorAll`: every line takes the arrow colour of its tag. */
  method SyncLines(svg: ArrowSvg, st: ColorState)
    requires st.Valid()
    modifies svg
    ensures svg.opacity == old(svg.opacity) && |svg.children| == |old(svg.children)|
    ensures forall k :: 0 <= k < |svg.children| ==> svg.children[k] == LineSynced(old(svg.children)[k], st.PaletteOf(Arrow))
  {
    ghost var arrows, before := st.PaletteOf(Arrow), svg.children;
    var j := 0;
    while j < |svg.children|
      invariant 0 <= j <= |svg.children| == |before|
      invariant svg.opacity == old(svg.opacity)
      invariant forall k :: 0 <= k < j ==> svg.children[k] == LineSynced(before[k], arrows)
      invariant forall k :: j <= k < |before| ==> svg.children[k] == before[k]
    {
      var node := svg.children[j];
      if node.LineNode? {
        svg.children := svg.children[j := LineNode(node.line.(stroke := st.GetColor(Arrow, node.line.tag)))];
      }
      j := j + 1;
    }
  }

  /** The second loop of `updateArrowColorAll`: every marker path takes the arrow colour of its tag. */
  method SyncMarkerPaths(svg: ArrowSvg, st: ColorState)
    requires st.Valid()
    modifies svg
    ensures svg.opacity == old(svg.opacity) && |svg.children| == |old(svg.children)|
    ensures forall k :: 0 <= k < |svg.children| ==>
      svg.children[k] == if old(svg.children)[k].DefsNode? then SyncNode(old(svg.children)[k], st.PaletteOf(Arrow)) else old(svg.children)[k]
  {
    ghost var before := svg.children;
    var arrows := st.PaletteOf(Arrow);
    var j := 0;
    while j < |svg.children|
      invariant 0 <= j <= |svg.children| == |before|
      invariant svg.opacity == old(svg.opacity)
      invariant forall k :: 0 <= k < j ==> svg.children[k] == if before[k].DefsNode? then SyncNode(before[k], arrows) else before[k]
      invariant forall k :: j <= k < |before| ==> svg.children[k] == before[k]
    {
      var node := svg.children[j];
      if node.DefsNode? {
        svg.children := svg.children[j := DefsNode(SyncMarkers(node.markers, arrows))];
      }
      j := j + 1;
    }
  }

  /**
   * `updateArrowOpacity`: nothing when the board has no layer; otherwise the
   * layer takes the arrow opacity and keeps its children.
   */
  method UpdateArrowOpacity(svg: ArrowSvg?, st: ColorState)
    modifies svg
    ensures svg != null ==> svg.opacity == st.GetOpacity(Arrow) && svg.children == old(svg.children)
  {
    if svg == null {
      return;
    }
    svg.opacity := st.GetOpacity(Arrow);
  }
}

/**
 * The overlay markup the extension produces for arrows: the elements of its
 * own `<svg class="fancyground-arrows">` layer, as values, and the layer
 * itself as an object whose children and opacity the renderers rewrite.
 */
module Svg {
  import opened Wrappers
  import opened Defaults

  /** An arrow's segment in grid units, tail (x1, y1) to tip (x2, y2). */
  datatype Coords = Coords(x1: int, y1: int, x2: int, y2: int)

  /** An arrowhead `<marker>` and its `<path>`, tagged with its colour number. */
  datatype Marker = Marker(id: string, fill: string, tag: Num)

  /** The piece silhouette `<image>` inside a mask. */
  datatype MaskImage = MaskImage(href: string, x: real, y: real, width: real, height: real, filter: string)

  /** One drawn arrow, a `<line>` tagged with its colour number. */
  datatype ArrowLine = ArrowLine(
    segment: Coords,
    markerEnd: string,
    stroke: string,
    strokeWidth: Option<real>,
    opacity: Option<string>,
    tag: ColorNum,
    mask: Option<string>)

  /** A child of the arrow layer. A mask also holds a constant white backdrop, not represented. */
  datatype SvgNode =
    | DefsNode(markers: seq<Marker>)
    | MaskNode(id: string, image: MaskImage)
    | FilterNode(id: string)
    | LineNode(line: ArrowLine)

  /** The arrow layer of one board. */
  class ArrowSvg {
    var opacity: Option<real>
    var children: seq<SvgNode>

    /** `createNewSvg`: an empty layer at the given arrow opacity. */
    constructor (opacity: Option<real>)
      ensures this.opacity == opacity && children == []
    {
      this.opacity := opacity;
      children := [];
    }
  }
}

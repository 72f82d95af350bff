/**
 * The fixed domains and constant tables of the extension: the colour slots
 * (`Num`), the two shape kinds, the settings names built from them, the
 * built-in default colours, and the four stroke colours the board widget uses
 * for its own shapes.
 */
module Defaults {
  import opened Builtins
  import opened Wrappers

  /** A user-assignable colour slot. */
  type Num = n: int | 1 <= n <= 4 witness 1

  /** A colour number as the renderers carry it: a slot, or the neutral 0. */
  type ColorNum = n: int | 0 <= n <= 4

  datatype Shape = Square | Arrow

  function ShapeName(shape: Shape): string {
    match shape
    case Square => "square"
    case Arrow => "arrow"
  }

  /** The settings key `${shape}_color_${n}`: always one of the keys of `defaults`. */
  function ColorName(shape: Shape, n: Num): (name: string)
    ensures |name| == |ShapeName(shape)| + 8
    ensures name[|name| - 1] == Digit(n)
  {
    ShapeName(shape) + "_color_" + NumberToString(n)
  }

  /** Every (shape, slot) name is one of the keys of `defaults`. */
  lemma ColorNameListed(shape: Shape, n: Num)
    ensures ColorName(shape, n) in ColorNames
    ensures ColorName(shape, n) in DefaultsTable
  {
    assert ColorName(shape, n) == ColorNames[(if shape == Arrow then 0 else 4) + n - 1];
  }

  /** Distinct (shape, slot) pairs name distinct settings. */
  lemma ColorNameInjective(s1: Shape, n1: Num, s2: Shape, n2: Num)
    requires ColorName(s1, n1) == ColorName(s2, n2)
    ensures s1 == s2 && n1 == n2
  {
    var a, b := ColorName(s1, n1), ColorName(s2, n2);
    assert a[0] == ShapeName(s1)[0] && b[0] == ShapeName(s2)[0];
    assert Digit(n1) == a[|a| - 1] == b[|b| - 1] == Digit(n2);
  }

  /** The keys of the `defaults` object, in declaration order. */
  const ColorNames: seq<string> := [
    "arrow_color_1", "arrow_color_2", "arrow_color_3", "arrow_color_4",
    "square_color_1", "square_color_2", "square_color_3", "square_color_4"
  ]

  /** The `defaults` object: a built-in colour for every settings key. */
  const DefaultsTable: map<string, string> := map[
    "arrow_color_1" := "#15781BD8",  // green
    "arrow_color_2" := "#C60B0BD8",  // red
    "arrow_color_3" := "#0080C6D8",  // blue
    "arrow_color_4" := "#FFC20ED8",  // yellow
    "square_color_1" := "#E69000AA",
    "square_color_2" := "#003088AA",
    "square_color_3" := "#990018AA",
    "square_color_4" := "#125740AA"
  ]

  /**
   * `defaults` has exactly the keys of `ColorNames`, eight distinct names,
   * each of them the name of one (shape, slot) pair.
   */
  lemma DefaultsCoverEveryName()
    ensures forall k :: k in ColorNames <==> k in DefaultsTable
    ensures forall i, j :: 0 <= i < j < |ColorNames| ==> ColorNames[i] != ColorNames[j]
    ensures forall i :: 0 <= i < |ColorNames| ==> ColorNames[i] == ColorName(if i < 4 then Arrow else Square, i % 4 + 1)
  {
    forall i, j | 0 <= i < j < |ColorNames| ensures ColorNames[i] != ColorNames[j] {
      var a, b := ColorNames[i], ColorNames[j];
      assert a[0] != b[0] || a[|a| - 1] != b[|b| - 1];
    }
  }

  /** The stroke colours the board widget gives its shapes, slot 1 first. */
  const LichessColors: seq<string> := ["#15781B", "#882020", "#003088", "#e68f00"]

  /** An index lookup in `LichessColors` identifies a unique slot. */
  lemma LichessColorsDistinct()
    ensures |LichessColors| == 4
    ensures forall i, j :: 0 <= i < j < |LichessColors| ==> LichessColors[i] != LichessColors[j]
  {
    forall i, j | 0 <= i < j < |LichessColors| ensures LichessColors[i] != LichessColors[j] {
      var a, b := LichessColors[i], LichessColors[j];
      assert a[1] != b[1] || a[6] != b[6];
    }
  }

  /**
   * `getColorNum`: the slot of a widget stroke colour, position + 1 in
   * `LichessColors`; an unrecognised colour falls back to slot 1.
   */
  function GetColorNum(lichessColor: string): (n: Num)
    ensures n == 1 || LichessColors[n - 1] == lichessColor
  {
    var i := IndexOf(LichessColors, lichessColor);
    if i < 0 then 1 else i + 1
  }

  /** A listed colour resolves to a slot holding it; any other colour to slot 1. */
  lemma GetColorNumSpec(lichessColor: string)
    ensures lichessColor in LichessColors ==> LichessColors[GetColorNum(lichessColor) - 1] == lichessColor
    ensures lichessColor !in LichessColors ==> GetColorNum(lichessColor) == 1
  {
    IndexOfSpec(LichessColors, lichessColor);
  }

  /** Slot resolution is stable: the colour listed at slot n resolves to n. */
  lemma GetColorNumOfPalette(n: Num)
    ensures GetColorNum(LichessColors[n - 1]) == n
  {
    LichessColorsDistinct();
    GetColorNumSpec(LichessColors[n - 1]);
    var k := GetColorNum(LichessColors[n - 1]);
    assert LichessColors[k - 1] == LichessColors[n - 1];
  }

  /**
   * The slot of a shape's `stroke` attribute. A missing attribute (`null`) is
   * not in `LichessColors` either, so it too falls back to slot 1.
   */
  function StrokeNum(stroke: Option<string>): (n: Num)
    ensures (stroke.None? || stroke.value !in LichessColors) ==> n == 1
    ensures stroke.Some? && stroke.value in LichessColors ==> LichessColors[n - 1] == stroke.value
  {
    match stroke
    case None => 1
    case Some(c) =>
      GetColorNumSpec(c);
      GetColorNum(c)
  }
}

/**
 * The content script's in-memory colour/opacity table. It starts as the
 * `defaults` object itself (the two are one object), is bulk-loaded from
 * settings by `InitState`, and is changed slot by slot when the options page
 * reports an edit. Opacities are kept as numbers; `None` is the `undefined`
 * an opacity reads as before any settings were loaded, because `defaults`
 * has no `arrow` or `square` entry.
 */
module State {
  import opened Wrappers
  import opened Defaults

  /** The colour drawn for colour number 0 (the widget's grey analysis shapes). */
  const Neutral: string := "#4a4a4a"

  /** The colours of one shape kind by colour number, 0 to 4, as a renderer reads them. */
  datatype Palette = Palette(c0: string, c1: string, c2: string, c3: string, c4: string) {
    function At(n: ColorNum): string {
      if n == 0 then c0 else if n == 1 then c1 else if n == 2 then c2 else if n == 3 then c3 else c4
    }

    /** The palette with slot `n` set to `c`. */
    function With(n: Num, c: string): (p: Palette)
      ensures p.At(n) == c
      ensures forall k: ColorNum :: k != n ==> p.At(k) == At(k)
    {
      if n == 1 then this.(c1 := c) else if n == 2 then this.(c2 := c) else if n == 3 then this.(c3 := c) else this.(c4 := c)
    }
  }

  /** Palettes that agree at every colour number are equal. */
  lemma PaletteExt(p: Palette, q: Palette)
    requires forall k: ColorNum :: p.At(k) == q.At(k)
    ensures p == q
  {
    assert p.At(0) == q.At(0) && p.At(1) == q.At(1) && p.At(2) == q.At(2) && p.At(3) == q.At(3) && p.At(4) == q.At(4);
  }

  /** A settings snapshot as `initState` receives it. */
  datatype Settings = Settings(colors: map<string, string>, arrow: Option<real>, square: Option<real>)

  class ColorState {
    /** The `${shape}_color_${n}` entries of the table. */
    var colors: map<string, string>
    /** The `arrow` and `square` entries. */
    var arrowOpacity: Option<real>
    var squareOpacity: Option<real>

    /** Every colour slot has a value. */
    ghost predicate Valid()
      reads this
    {
      forall shape: Shape, n: Num :: ColorName(shape, n) in colors
    }

    /** Module load: the table is the `defaults` object. */
    constructor ()
      ensures Valid()
      ensures colors == DefaultsTable
      ensures arrowOpacity == None && squareOpacity == None
    {
      colors := DefaultsTable;
      arrowOpacity := None;
      squareOpacity := None;
      new;
      forall shape: Shape, n: Num ensures ColorName(shape, n) in DefaultsTable {
        ColorNameListed(shape, n);
      }
    }

    /**
     * `getColor`: colour number 0 always reads as the neutral grey; a slot
     * reads its `${shape}_color_${n}` entry.
     */
    function GetColor(shape: Shape, colorNum: ColorNum): (c: string)
      reads this
      requires Valid()
      ensures colorNum == 0 ==> c == Neutral
      ensures colorNum != 0 ==> c == colors[ColorName(shape, colorNum)]
    {
      if colorNum == 0 then Neutral else colors[ColorName(shape, colorNum)]
    }

    /** `getOpacity`: the opacity entry of a shape kind. */
    function GetOpacity(shape: Shape): (o: Option<real>)
      reads this
      ensures shape == Arrow ==> o == arrowOpacity
      ensures shape == Square ==> o == squareOpacity
    {
      match shape
      case Arrow => arrowOpacity
      case Square => squareOpacity
    }

    /** The colours of one shape kind by colour number, 0 included. */
    function PaletteOf(shape: Shape): (m: Palette)
      reads this
      requires Valid()
      ensures forall n: ColorNum :: m.At(n) == GetColor(shape, n)
    {
      Palette(GetColor(shape, 0), GetColor(shape, 1), GetColor(shape, 2), GetColor(shape, 3), GetColor(shape, 4))
    }

    /** `initState`: copies every colour slot and both opacities from the settings. */
    method InitState(p: Settings)
      requires forall k :: k in ColorNames ==> k in p.colors
      modifies this
      ensures Valid()
      ensures colors.Keys == old(colors).Keys + set k | k in ColorNames
      ensures forall k :: k in ColorNames ==> colors[k] == p.colors[k]
      ensures forall k :: k in old(colors) && k !in ColorNames ==> colors[k] == old(colors)[k]
      ensures forall shape: Shape, n: Num :: ColorName(shape, n) in p.colors && GetColor(shape, n) == p.colors[ColorName(shape, n)]
      ensures arrowOpacity == p.arrow && squareOpacity == p.square
    {
      var names := ColorNames;
      var i := 0;
      while i < |names|
        invariant 0 <= i <= |names|
        invariant colors.Keys == old(colors).Keys + set k | k in names[..i]
        invariant forall k :: k in names[..i] ==> colors[k] == p.colors[k]
        invariant forall k :: k in old(colors) && k !in names[..i] ==> colors[k] == old(colors)[k]
      {
        var name := names[i];
        colors := colors[name := p.colors[name]];
        assert names[..i + 1] == names[..i] + [name];
        i := i + 1;
      }
      assert names[..i] == names;
      arrowOpacity := p.arrow;
      squareOpacity := p.square;
      forall shape: Shape, n: Num ensures ColorName(shape, n) in ColorNames {
        ColorNameListed(shape, n);
      }
    }

    /** `setColor`: changes exactly one slot. */
    method SetColor(shape: Shape, colorNum: Num, color: string)
      requires Valid()
      modifies this
      ensures Valid()
      ensures colors == old(colors)[ColorName(shape, colorNum) := color]
      ensures arrowOpacity == old(arrowOpacity) && squareOpacity == old(squareOpacity)
      ensures GetColor(shape, colorNum) == color
      ensures forall s: Shape, n: ColorNum :: (s, n) != (shape, colorNum) ==> GetColor(s, n) == old(GetColor(s, n))
      ensures PaletteOf(shape) == old(PaletteOf(shape)).With(colorNum, color)
    {
      ghost var before := PaletteOf(shape);
      colors := colors[ColorName(shape, colorNum) := color];
      forall s: Shape, n: ColorNum | n != 0 && (s, n) != (shape, colorNum)
        ensures ColorName(s, n) != ColorName(shape, colorNum)
      {
        if ColorName(s, n) == ColorName(shape, colorNum) {
          ColorNameInjective(s, n, shape, colorNum);
        }
      }
      PaletteExt(PaletteOf(shape), before.With(colorNum, color));
    }

    /** `setOpacity`: changes one shape kind's opacity and nothing else. */
    method SetOpacity(shape: Shape, opacity: Option<real>)
      modifies this
      ensures colors == old(colors)
      ensures GetOpacity(shape) == opacity
      ensures shape == Arrow ==> squareOpacity == old(squareOpacity)
      ensures shape == Square ==> arrowOpacity == old(arrowOpacity)
    {
      match shape
      case Arrow => arrowOpacity := opacity;
      case Square => squareOpacity := opacity;
    }
  }

  /** Before any settings are loaded, every slot reads its built-in default. */
  lemma FreshStateReadsDefaults(st: ColorState, shape: Shape, n: Num)
    requires st.Valid() && st.colors == DefaultsTable
    ensures ColorName(shape, n) in DefaultsTable
    ensures st.GetColor(shape, n) == DefaultsTable[ColorName(shape, n)]
  {
    DefaultsCoverEveryName();
  }
}

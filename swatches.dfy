/**
 * The options page's row of colour swatches: one swatch per settings key,
 * at most one meant to be active, each showing its colour as background.
 * A swatch's background is `None` until something assigns it; the colour
 * the browser computes from a background is a parameter (`computed`).
 */
module Swatches {
  import opened Wrappers

  /** One swatch element: its `data-name`, whether it has the `active` class, and its inline background. */
  datatype Swatch = Swatch(name: string, active: bool, background: Option<string>)

  /** The number of swatches with the `active` class. */
  function CountActive(ss: seq<Swatch>): (n: nat)
    ensures n <= |ss|
  {
    if ss == [] then 0 else (if ss[0].active then 1 else 0) + CountActive(ss[1..])
  }

  /** The position of the first active swatch, or |ss| when none is. */
  function FirstActive(ss: seq<Swatch>): (k: nat)
    ensures k <= |ss|
    ensures k < |ss| ==> ss[k].active
    ensures forall j :: 0 <= j < k ==> !ss[j].active
  {
    if ss == [] then 0 else if ss[0].active then 0 else 1 + FirstActive(ss[1..])
  }

  /** A swatch is active after a switch to `name` exactly when it carries that name. */
  function Switch(s: Swatch, name: string): Swatch {
    s.(active := s.name == name)
  }

  /** The swatches after `switchActiveColor(name)`. */
  function Switched(ss: seq<Swatch>, name: string): (r: seq<Swatch>)
    ensures |r| == |ss|
    ensures forall i :: 0 <= i < |ss| ==> r[i] == Switch(ss[i], name)
  {
    seq(|ss|, i requires 0 <= i < |ss| => Switch(ss[i], name))
  }

  /** `setColors` on one swatch: the table's entry for its name; a name the table lacks leaves it as it was. */
  function Paint(s: Swatch, colors: map<string, string>): Swatch {
    if s.name in colors then s.(background := Some(colors[s.name])) else s
  }

  /** The swatches after `setColors(colors)`. */
  function Painted(ss: seq<Swatch>, colors: map<string, string>): (r: seq<Swatch>)
    ensures |r| == |ss|
    ensures forall i :: 0 <= i < |ss| ==> r[i] == Paint(ss[i], colors)
  {
    seq(|ss|, i requires 0 <= i < |ss| => Paint(ss[i], colors))
  }

  /** The colour computed for the last swatch named `name`, if any swatch is. */
  function LastMatch(ss: seq<Swatch>, name: string, computed: Option<string> -> string): (c: Option<string>)
    decreases |ss|
  {
    if ss == [] then None
    else if ss[|ss| - 1].name == name then Some(computed(ss[|ss| - 1].background))
    else LastMatch(ss[..|ss| - 1], name, computed)
  }

  /**
   * A switch finds a colour exactly when some swatch carries the name, and
   * the colour is the one computed for the last such swatch.
   */
  lemma {:induction false} LastMatchSpec(ss: seq<Swatch>, name: string, computed: Option<string> -> string)
    ensures LastMatch(ss, name, computed).None? <==> forall i :: 0 <= i < |ss| ==> ss[i].name != name
    ensures LastMatch(ss, name, computed).Some? ==>
      exists k :: (0 <= k < |ss| && ss[k].name == name &&
                   LastMatch(ss, name, computed).value == computed(ss[k].background) &&
                   forall j :: k < j < |ss| ==> ss[j].name != name)
    decreases |ss|
  {
    if ss != [] && ss[|ss| - 1].name != name {
      var init := ss[..|ss| - 1];
      LastMatchSpec(init, name, computed);
      assert forall i :: 0 <= i < |init| ==> init[i] == ss[i];
    }
  }

  /** Switching twice to the same name is switching once; names and backgrounds stay as they were. */
  lemma SwitchedIdempotent(ss: seq<Swatch>, name: string)
    ensures Switched(Switched(ss, name), name) == Switched(ss, name)
    ensures forall i :: 0 <= i < |ss| ==>
      Switched(ss, name)[i].name == ss[i].name && Switched(ss, name)[i].background == ss[i].background
  {
  }

  /** Painting twice with the same table is painting once. */
  lemma PaintedIdempotent(ss: seq<Swatch>, colors: map<string, string>)
    ensures Painted(Painted(ss, colors), colors) == Painted(ss, colors)
  {
  }

  /** The number of swatches named `name`. */
  function CountNamed(ss: seq<Swatch>, name: string): (n: nat)
    ensures n <= |ss|
  {
    if ss == [] then 0 else (if ss[0].name == name then 1 else 0) + CountNamed(ss[1..], name)
  }

  /** After a switch, the active swatches are exactly those named `name`. */
  lemma {:induction false} SwitchedActiveCount(ss: seq<Swatch>, name: string)
    ensures CountActive(Switched(ss, name)) == CountNamed(ss, name)
    decreases |ss|
  {
    if ss != [] {
      SwitchedActiveCount(ss[1..], name);
      assert Switched(ss, name)[1..] == Switched(ss[1..], name);
    }
  }

  /** Exactly one swatch counts when only one position carries the property. */
  lemma {:induction false} CountNamedOne(ss: seq<Swatch>, name: string, k: int)
    requires 0 <= k < |ss| && ss[k].name == name
    requires forall j :: 0 <= j < |ss| && j != k ==> ss[j].name != name
    ensures CountNamed(ss, name) == 1
    decreases |ss|
  {
    if k == 0 {
      CountNamedNone(ss[1..], name);
    } else {
      CountNamedOne(ss[1..], name, k - 1);
    }
  }

  lemma {:induction false} CountNamedNone(ss: seq<Swatch>, name: string)
    requires forall j :: 0 <= j < |ss| ==> ss[j].name != name
    ensures CountNamed(ss, name) == 0
    decreases |ss|
  {
    if ss != [] {
      CountNamedNone(ss[1..], name);
    }
  }

  /**
   * With one swatch per name, switching to a listed name leaves exactly one
   * swatch active, the named one, so a following `setColor` acts on it.
   */
  lemma SwitchedThenOneActive(ss: seq<Swatch>, name: string, k: int)
    requires forall i, j :: 0 <= i < j < |ss| ==> ss[i].name != ss[j].name
    requires 0 <= k < |ss| && ss[k].name == name
    ensures CountActive(Switched(ss, name)) == 1
    ensures FirstActive(Switched(ss, name)) == k
  {
    SwitchedActiveCount(ss, name);
    CountNamedOne(ss, name, k);
    var r := Switched(ss, name);
    var f := FirstActive(r);
    assert r[k].active;
    if f < k {
      assert r[f].active;
    }
  }

  /** The `Swatches` controller of the options page. */
  class Swatches {
    /** The container's children, in order. */
    var swatches: seq<Swatch>
    /** `_activeColorName`. */
    var activeColorName: string
    /** Whether `onSwitchActiveColor` is set. */
    var hasHandler: bool

    /** A controller over the container's swatches, starting on the first arrow colour. */
    constructor (swatches: seq<Swatch>)
      ensures this.swatches == swatches
      ensures activeColorName == "arrow_color_1"
      ensures !hasHandler
    {
      this.swatches := swatches;
      activeColorName := "arrow_color_1";
      hasHandler := false;
    }

    /** Assigning `onSwitchActiveColor`. */
    method SetHandler()
      modifies this
      ensures hasHandler
      ensures swatches == old(swatches) && activeColorName == old(activeColorName)
    {
      hasHandler := true;
    }

    /** `setColors`: each swatch shows the table's colour for its name. */
    method SetColors(colors: map<string, string>)
      modifies this
      ensures swatches == Painted(old(swatches), colors)
      ensures activeColorName == old(activeColorName) && hasHandler == old(hasHandler)
    {
      var i := 0;
      while i < |swatches|
        invariant 0 <= i <= |swatches| == |old(swatches)|
        invariant forall k :: 0 <= k < i ==> swatches[k] == Paint(old(swatches)[k], colors)
        invariant forall k :: i <= k < |swatches| ==> swatches[k] == old(swatches)[k]
        invariant activeColorName == old(activeColorName) && hasHandler == old(hasHandler)
      {
        swatches := swatches[i := Paint(swatches[i], colors)];
        i := i + 1;
      }
    }

    /**
     * `setColor`: when exactly one swatch is active, it shows `color` and its
     * name is returned; otherwise nothing changes and there is no name.
     */
    method SetColor(color: string) returns (name: Option<string>)
      modifies this
      ensures CountActive(old(swatches)) != 1 ==> name == None && swatches == old(swatches)
      ensures CountActive(old(swatches)) == 1 ==>
        var k := FirstActive(old(swatches));
        k < |old(swatches)| && name == Some(old(swatches)[k].name) &&
        swatches == old(swatches)[k := old(swatches)[k].(background := Some(color))]
      ensures activeColorName == old(activeColorName) && hasHandler == old(hasHandler)
    {
      if CountActive(swatches) != 1 {
        return None;
      }
      var k := FirstActive(swatches);
      ActiveExists(swatches);
      swatches := swatches[k := swatches[k].(background := Some(color))];
      name := Some(swatches[k].name);
    }

    /**
     * `switchActiveColor`: records `name`, makes exactly the swatches with
     * that name active, and calls the handler with the colour computed for the
     * last of them, when propagating, a handler is set and that colour is not
     * empty. The call made, if any, is returned.
     */
    method SwitchActiveColor(name: string, propagate: bool, computed: Option<string> -> string)
      returns (fired: Option<(string, string)>)
      modifies this
      ensures activeColorName == name
      ensures swatches == Switched(old(swatches), name)
      ensures hasHandler == old(hasHandler)
      ensures var c := LastMatch(old(swatches), name, computed);
        fired == if hasHandler && propagate && c.Some? && c.value != "" then Some((name, c.value)) else None
    {
      activeColorName := name;
      var activeColor: Option<string> := None;
      ghost var before := swatches;
      var i := 0;
      while i < |swatches|
        invariant 0 <= i <= |swatches| == |before|
        invariant forall k :: 0 <= k < i ==> swatches[k] == Switch(before[k], name)
        invariant forall k :: i <= k < |swatches| ==> swatches[k] == before[k]
        invariant activeColor == LastMatch(before[..i], name, computed)
        invariant activeColorName == name && hasHandler == old(hasHandler)
      {
        assert before[..i + 1][..i] == before[..i];
        if swatches[i].name == name {
          activeColor := Some(computed(swatches[i].background));
        }
        swatches := swatches[i := Switch(swatches[i], name)];
        i := i + 1;
      }
      assert before[..i] == before;
      if hasHandler && propagate && activeColor.Some? && activeColor.value != "" {
        fired := Some((name, activeColor.value));
      } else {
        fired := None;
      }
    }

    /**
     * A click on the i-th swatch: a propagating switch to its name. When no
     * later swatch shares the name, the handler, if set, receives the colour
     * computed for the clicked swatch, unless that colour is empty.
     */
    method Click(i: int, computed: Option<string> -> string) returns (fired: Option<(string, string)>)
      requires 0 <= i < |swatches|
      modifies this
      ensures activeColorName == old(swatches)[i].name
      ensures swatches == Switched(old(swatches), old(swatches)[i].name)
      ensures swatches[i].active
      ensures fired.Some? ==> hasHandler && fired.value.0 == old(swatches)[i].name
      ensures (forall j :: i < j < |old(swatches)| ==> old(swatches)[j].name != old(swatches)[i].name) ==>
        fired == if hasHandler && computed(old(swatches)[i].background) != ""
                 then Some((old(swatches)[i].name, computed(old(swatches)[i].background))) else None
    {
      var name := swatches[i].name;
      LastMatchSpec(swatches, name, computed);
      fired := SwitchActiveColor(name, true, computed);
    }
  }

  /** A count of one means there is an active swatch, and it is the first. */
  lemma {:induction false} ActiveExists(ss: seq<Swatch>)
    requires CountActive(ss) >= 1
    ensures FirstActive(ss) < |ss|
    decreases |ss|
  {
    if !ss[0].active {
      ActiveExists(ss[1..]);
    }
  }
}

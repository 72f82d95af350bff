/**
 * The `<defs>` of the arrow layer: one arrowhead marker per colour slot, and
 * the per-arrow mask that hides the arrow where a piece stands, built from
 * the piece's own image recoloured black. Every id is namespaced by the
 * board's prefix.
 */
module ArrowDefs {
  import opened Wrappers
  import opened Builtins
  import opened Defaults
  import opened Common
  import opened State
  import opened Svg

  /** The id of the arrowhead marker for a colour slot. */
  function CapId(prefix: string, colorNum: Num): (id: string)
    ensures |id| == |prefix| + 10
  {
    prefix + "arrowhead" + NumberToString(colorNum)
  }

  /** An arrowhead id starts with the board's prefix and ends with the slot's digit. */
  lemma CapIdShape(prefix: string, colorNum: Num)
    ensures CapId(prefix, colorNum)[..|prefix|] == prefix
    ensures CapId(prefix, colorNum)[|prefix| + 9] == Digit(colorNum)
  {
  }

  /** For one board, distinct slots have distinct arrowhead ids. */
  lemma CapIdInjective(prefix: string, a: Num, b: Num)
    requires CapId(prefix, a) == CapId(prefix, b)
    ensures a == b
  {
    CapIdShape(prefix, a);
    CapIdShape(prefix, b);
  }

  /** The `marker-end` reference to a slot's arrowhead: `url(#id)`. */
  function GetCap(prefix: string, colorNum: Num): (cap: string)
    ensures |cap| == |prefix| + 16
  {
    "url(#" + CapId(prefix, colorNum) + ")"
  }

  /** A cap is `url(#` and the arrowhead id and `)`, so distinct slots get distinct caps. */
  lemma GetCapShape(prefix: string, colorNum: Num)
    ensures var cap := GetCap(prefix, colorNum);
      cap[..5] == "url(#" && cap[|cap| - 1] == ')' && cap[5..|cap| - 1] == CapId(prefix, colorNum)
    ensures forall other: Num :: GetCap(prefix, other) == GetCap(prefix, colorNum) ==> other == colorNum
  {
    var cap := GetCap(prefix, colorNum);
    assert cap[5..|cap| - 1] == CapId(prefix, colorNum);
    forall other: Num | GetCap(prefix, other) == cap ensures other == colorNum {
      var c2 := GetCap(prefix, other);
      assert c2[5..|c2| - 1] == CapId(prefix, other);
      CapIdInjective(prefix, other, colorNum);
    }
  }

  /** `createMarker`: the arrowhead of a slot, filled with that slot's arrow colour. */
  function CreateMarker(colorNum: Num, prefix: string, st: ColorState): (m: Marker)
    reads st
    requires st.Valid()
    ensures m.id == CapId(prefix, colorNum) && m.tag == colorNum
    ensures m.fill == st.GetColor(Arrow, colorNum)
  {
    Marker(CapId(prefix, colorNum), st.GetColor(Arrow, colorNum), colorNum)
  }

  /** The markers `createDefs` emits, slots 1 to 4 in order. */
  function DefsFor(prefix: string, st: ColorState): (ms: seq<Marker>)
    reads st
    requires st.Valid()
    ensures |ms| == |LichessColors|
    ensures forall i :: 0 <= i < |ms| ==> ms[i] == CreateMarker(i + 1, prefix, st)
  {
    [CreateMarker(1, prefix, st), CreateMarker(2, prefix, st),
     CreateMarker(3, prefix, st), CreateMarker(4, prefix, st)]
  }

  /** `createDefs`: one marker per colour slot, appended in ascending slot order. */
  method CreateDefs(prefix: string, st: ColorState) returns (markers: seq<Marker>)
    requires st.Valid()
    ensures markers == DefsFor(prefix, st)
  {
    markers := [];
    var num := 1;
    while num <= |LichessColors|
      invariant 1 <= num <= |LichessColors| + 1
      invariant |markers| == num - 1
      invariant forall i :: 0 <= i < num - 1 ==> markers[i] == CreateMarker(i + 1, prefix, st)
    {
      markers := markers + [CreateMarker(num, prefix, st)];
      num := num + 1;
    }
  }

  /** Every marker of one board has its own id. */
  lemma DefsIdsDistinct(prefix: string, st: ColorState)
    requires st.Valid()
    ensures forall i, j :: 0 <= i < j < |DefsFor(prefix, st)| ==> DefsFor(prefix, st)[i].id != DefsFor(prefix, st)[j].id
  {
    var ms := DefsFor(prefix, st);
    forall i, j | 0 <= i < j < |ms| ensures ms[i].id != ms[j].id {
      if ms[i].id == ms[j].id {
        CapIdInjective(prefix, i + 1, j + 1);
      }
    }
  }

  // ---------------------------------------------------------------------------
  // Finding the piece on a square.

  /** The inline transform the widget gives a piece, in pixels: `translate(Xpx)` or `translate(Xpx, Ypx)`. */
  datatype PxTransform = TranslateX(x: real) | TranslateXY(x: real, y: real)

  /**
   * What the mask builder reads from the page for one board: its orientation,
   * its rendered width, and each piece element by its inline transform,
   * mapped to the piece's computed `background-image`.
   */
  datatype BoardView = BoardView(flip: bool, width: real, pieces: map<PxTransform, string>)

  /** A grid coordinate in pixels on a board `boardSize` pixels wide. */
  function Scaled(v: int, boardSize: real): real {
    v as real * (boardSize / 8.0)
  }

  /**
   * `createPxTransform`: the transform a piece on `key` carries, with grid
   * units scaled by a square's width in pixels. The one-argument form is used
   * exactly when the scaled y is zero.
   */
  function CreatePxTransform(key: string, flip: bool, boardSize: real): (t: PxTransform)
    ensures t.x == Scaled(KeyToXY(key, flip).x, boardSize)
    ensures t.TranslateX? <==> Scaled(KeyToXY(key, flip).y, boardSize) == 0.0
    ensures t.TranslateXY? ==> t.y == Scaled(KeyToXY(key, flip).y, boardSize)
  {
    var p := KeyToXY(key, flip);
    var x := Scaled(p.x, boardSize);
    var y := Scaled(p.y, boardSize);
    if y == 0.0 then TranslateX(x) else TranslateXY(x, y)
  }

  /** On a board of non-zero width, the short form is used exactly for the top row. */
  lemma PxTransformShortForm(key: string, flip: bool, boardSize: real)
    requires boardSize != 0.0
    ensures CreatePxTransform(key, flip, boardSize).TranslateX? <==> KeyToXY(key, flip).y == 0
  {
    var y := KeyToXY(key, flip).y;
    ScaledZero(y, boardSize);
  }

  lemma ScaledZero(v: int, boardSize: real)
    requires boardSize != 0.0
    ensures Scaled(v, boardSize) == 0.0 <==> v == 0
  {
    var w := boardSize / 8.0;
    assert w != 0.0;
    if v != 0 {
      assert (v as real) * w != 0.0;
    }
  }

  predicate IsQuote(c: char) {
    c == '\'' || c == '"'
  }

  predicate QuoteFree(s: string) {
    forall i :: 0 <= i < |s| ==> !IsQuote(s[i])
  }

  /** `s.split(/['"]/g)`: the fields between quote characters, in order. */
  function SplitQuotes(s: string): (parts: seq<string>)
    ensures |parts| >= 1
    ensures forall i :: 0 <= i < |parts| ==> QuoteFree(parts[i])
    decreases |s|
  {
    if |s| == 0 then [""]
    else
      var rest := SplitQuotes(s[1..]);
      if IsQuote(s[0]) then [""] + rest
      else
        assert QuoteFree([s[0]] + rest[0]) by {
          assert forall i :: 1 <= i < |rest[0]| + 1 ==> ([s[0]] + rest[0])[i] == rest[0][i - 1];
        }
        [[s[0]] + rest[0]] + rest[1..]
  }

  /** A string without quotes is one field. */
  lemma {:induction false} SplitQuoteFree(s: string)
    requires QuoteFree(s)
    ensures SplitQuotes(s) == [s]
    decreases |s|
  {
    if |s| > 0 {
      SplitQuoteFree(s[1..]);
      assert [s[0]] + s[1..] == s;
    }
  }

  /** A quote ends the first field; splitting resumes after it. */
  lemma {:induction false} SplitAtQuote(a: string, q: char, t: string)
    requires QuoteFree(a) && IsQuote(q)
    ensures SplitQuotes(a + [q] + t) == [a] + SplitQuotes(t)
    decreases |a|
  {
    var s := a + [q] + t;
    if |a| == 0 {
      assert s[1..] == t;
    } else {
      assert s[1..] == a[1..] + [q] + t;
      SplitAtQuote(a[1..], q, t);
      assert [s[0]] + a[1..] == a;
    }
  }

  /**
   * The part of `getPieceImageUrl` after the lookup: the second field of the
   * background-image split on quotes, or nothing when there are fewer than two.
   */
  function UrlOfBackground(background: string): (url: Option<string>)
    ensures url.None? <==> QuoteFree(background)
  {
    SplitQuotesFieldCount(background);
    var split := SplitQuotes(background);
    if |split| < 2 then None else Some(split[1])
  }

  /** There is more than one field exactly when the string has a quote. */
  lemma SplitQuotesFieldCount(s: string)
    ensures |SplitQuotes(s)| >= 2 <==> !QuoteFree(s)
  {
    if QuoteFree(s) {
      SplitQuoteFree(s);
    } else {
      var k :| 0 <= k < |s| && IsQuote(s[k]);
      var i := MinQuote(s, k);
      assert s == s[..i] + [s[i]] + s[i + 1..];
      SplitAtQuote(s[..i], s[i], s[i + 1..]);
    }
  }

  /** The first quote at or before position k. */
  function MinQuote(s: string, k: nat): (m: nat)
    requires k < |s| && IsQuote(s[k])
    ensures m <= k && IsQuote(s[m]) && forall j :: 0 <= j < m ==> !IsQuote(s[j])
  {
    if forall j :: 0 <= j < k ==> !IsQuote(s[j]) then k
    else
      var j :| 0 <= j < k && IsQuote(s[j]);
      MinQuote(s, j)
  }

  /** For `url("…")` and `url('…')`, the URL is the text between the first two quotes. */
  lemma UrlBetweenQuotes(a: string, q1: char, url: string, q2: char, rest: string)
    requires QuoteFree(a) && QuoteFree(url) && IsQuote(q1) && IsQuote(q2)
    ensures UrlOfBackground(a + [q1] + url + [q2] + rest) == Some(url)
  {
    var s := a + [q1] + url + [q2] + rest;
    assert s == a + [q1] + (url + [q2] + rest);
    SplitAtQuote(a, q1, url + [q2] + rest);
    SplitAtQuote(url, q2, rest);
  }

  /** `getPieceImageUrl`: the image URL of the piece drawn on `key`, if a piece is there. */
  function PieceImageUrl(key: string, board: BoardView): (url: Option<string>)
    ensures CreatePxTransform(key, board.flip, board.width) !in board.pieces ==> url.None?
    ensures CreatePxTransform(key, board.flip, board.width) in board.pieces ==>
      url == UrlOfBackground(board.pieces[CreatePxTransform(key, board.flip, board.width)])
  {
    var transform := CreatePxTransform(key, board.flip, board.width);
    if transform !in board.pieces then None
    else UrlOfBackground(board.pieces[transform])
  }

  /** The URL a mask is built from: a piece's image URL that is not the empty string. */
  function MaskSource(key: string, board: BoardView): (url: Option<string>)
    ensures url.Some? <==> PieceImageUrl(key, board).Some? && PieceImageUrl(key, board).value != ""
    ensures url.Some? ==> url == PieceImageUrl(key, board)
  {
    var url := PieceImageUrl(key, board);
    if url.None? || url.value == "" then None else url
  }

  /** `createFilter`'s id for a board. */
  function FilterId(prefix: string): string {
    prefix + "toBlack"
  }

  /**
   * `createImage`: the silhouette occupies one square, its corner half a
   * square up and left of the square's centre, drawn through the board's
   * black filter.
   */
  function CreateImage(url: string, key: string, flip: bool, prefix: string): (image: MaskImage)
    ensures image.href == url && image.width == 1.0 && image.height == 1.0
    ensures image.x + 0.5 == KeyToXY(key, flip).x as real
    ensures image.y + 0.5 == KeyToXY(key, flip).y as real
    ensures image.filter == "url(#" + FilterId(prefix) + ")"
  {
    var p := KeyToXY(key, flip);
    MaskImage(url, p.x as real - 0.5, p.y as real - 0.5, 1.0, 1.0, "url(#" + FilterId(prefix) + ")")
  }

  /** The two children `createMask` puts at the front of the layer: the mask, then the filter. */
  function MaskNodes(key: string, flip: bool, prefix: string, url: string): (nodes: seq<SvgNode>)
    ensures |nodes| == 2 && nodes[0].MaskNode? && nodes[0].id == prefix + key
    ensures nodes[1] == FilterNode(FilterId(prefix))
  {
    [MaskNode(prefix + key, CreateImage(url, key, flip, prefix)), FilterNode(FilterId(prefix))]
  }

  /**
   * `createMask`: when a piece with an image stands on `key`, puts its filter
   * and then its mask at the front of the layer and returns the mask's id,
   * `prefix + key`; otherwise adds nothing and returns nothing.
   */
  method CreateMask(svg: ArrowSvg, key: string, board: BoardView, prefix: string) returns (maskId: Option<string>)
    modifies svg
    ensures svg.opacity == old(svg.opacity)
    ensures maskId.Some? <==> MaskSource(key, board).Some?
    ensures maskId.None? ==> svg.children == old(svg.children)
    ensures maskId.Some? ==>
      (maskId.value == prefix + key &&
       svg.children == MaskNodes(key, board.flip, prefix, MaskSource(key, board).value) + old(svg.children))
  {
    var imageUrl := PieceImageUrl(key, board);
    if imageUrl.None? || imageUrl.value == "" {
      return None;
    }
    svg.children := [FilterNode(FilterId(prefix))] + svg.children;
    var mask := MaskNode(prefix + key, CreateImage(imageUrl.value, key, board.flip, prefix));
    svg.children := [mask] + svg.children;
    maskId := Some(prefix + key);
  }
}

/**
 * Board geometry shared by the renderers: an algebraic square to a 0..7 grid
 * position (mirrored when the board is seen from Black's side), and the
 * square tokens `keyRegex` finds in the widget's `cgHash` attribute.
 */
module Common {
  import opened Builtins
  import opened Wrappers

  const Files: string := "abcdefgh"
  /** Ranks in screen order: rank 8 is the top row, y = 0. */
  const RanksTopDown: string := "87654321"

  /** `[abcdefgh]` of `keyRegex`. */
  predicate IsFile(c: char) { 'a' <= c <= 'h' }
  /** `[12345678]` of `keyRegex`. */
  predicate IsRank(c: char) { '1' <= c <= '8' }

  /** `'abcdefgh'.indexOf(c)`, by character code. */
  function FileIndex(c: char): int {
    if IsFile(c) then c as int - 'a' as int else -1
  }

  /** `'87654321'.indexOf(c)`, by character code. */
  function RankRow(c: char): int {
    if IsRank(c) then '8' as int - c as int else -1
  }

  /** `FileIndex` is the position in "abcdefgh", and the file letters are exactly that string's characters. */
  lemma FileIndexIsIndexOf(c: char)
    ensures FileIndex(c) == IndexOf(Files, c)
    ensures IsFile(c) <==> c in Files
  {
    IndexOfSpec(Files, c);
    if IsFile(c) {
      assert Files[FileIndex(c)] == c;
      var i := IndexOf(Files, c);
      assert Files[i] == c;
    }
  }

  /** `RankRow` is the position in "87654321", and the rank digits are exactly that string's characters. */
  lemma RankRowIsIndexOf(c: char)
    ensures RankRow(c) == IndexOf(RanksTopDown, c)
    ensures IsRank(c) <==> c in RanksTopDown
  {
    IndexOfSpec(RanksTopDown, c);
    if IsRank(c) {
      assert RanksTopDown[RankRow(c)] == c;
      var i := IndexOf(RanksTopDown, c);
      assert RanksTopDown[i] == c;
    }
  }

  /** A `keyRegex` token: exactly one file letter followed by one rank digit. */
  predicate IsSquare(key: string) {
    |key| == 2 && IsFile(key[0]) && IsRank(key[1])
  }

  /** A grid position; x counts files from the left, y rows from the top. */
  datatype XY = XY(x: int, y: int)

  function Mirror(p: XY): XY {
    XY(7 - p.x, 7 - p.y)
  }

  /**
   * `keyToXY`: the grid position of the square named by the first two
   * characters of `key`. A character that is missing or not a file/rank gives
   * -1 on that axis (8 once mirrored); nothing fails.
   */
  function KeyToXY(key: string, flip: bool): XY {
    var x := if |key| >= 1 then FileIndex(key[0]) else -1;
    var y := if |key| >= 2 then RankRow(key[1]) else -1;
    if flip then XY(7 - x, 7 - y) else XY(x, y)
  }

  /**
   * For a square, unflipped x is the file's position in "abcdefgh" and y the
   * rank's position in "87654321" (rank 8 is y = 0); flipped, both are
   * mirrored. Either way both lie in 0..7.
   */
  lemma KeyToXYOfSquare(key: string, flip: bool)
    requires IsSquare(key)
    ensures 0 <= KeyToXY(key, flip).x <= 7 && 0 <= KeyToXY(key, flip).y <= 7
    ensures !flip ==> Files[KeyToXY(key, flip).x] == key[0] && RanksTopDown[KeyToXY(key, flip).y] == key[1]
    ensures flip ==> Files[7 - KeyToXY(key, flip).x] == key[0] && RanksTopDown[7 - KeyToXY(key, flip).y] == key[1]
  {
    FileIndexIsIndexOf(key[0]);
    RankRowIsIndexOf(key[1]);
  }

  /** A missing or unrecognised file or rank character gives -1 on that axis, 8 once mirrored. */
  lemma KeyToXYOfNonSquare(key: string, flip: bool)
    ensures (|key| == 0 || key[0] !in Files) ==> KeyToXY(key, flip).x == if flip then 8 else -1
    ensures (|key| < 2 || key[1] !in RanksTopDown) ==> KeyToXY(key, flip).y == if flip then 8 else -1
  {
    if |key| >= 1 {
      FileIndexIsIndexOf(key[0]);
    }
    if |key| >= 2 {
      RankRowIsIndexOf(key[1]);
    }
  }

  /** The square drawn at a grid position: the inverse of `KeyToXY`. */
  function XYToKey(p: XY, flip: bool): (key: string)
    requires 0 <= p.x <= 7 && 0 <= p.y <= 7
    ensures IsSquare(key)
  {
    var q := if flip then Mirror(p) else p;
    [Files[q.x], RanksTopDown[q.y]]
  }

  /** Seen from Black's side, every square sits at the mirror of its unflipped position. */
  lemma KeyToXYFlip(key: string)
    ensures KeyToXY(key, true) == Mirror(KeyToXY(key, false))
  {
  }

  /** Mirroring twice restores the position. */
  lemma MirrorInvolution(p: XY)
    ensures Mirror(Mirror(p)) == p
  {
  }

  /** Reading back the square at the position of a valid square gives that square. */
  lemma KeyRoundTrip(key: string, flip: bool)
    requires IsSquare(key)
    ensures var p := KeyToXY(key, flip); 0 <= p.x <= 7 && 0 <= p.y <= 7 && XYToKey(p, flip) == key
  {
    KeyToXYOfSquare(key, flip);
    var p := KeyToXY(key, flip);
    var q := if flip then Mirror(p) else p;
    assert XYToKey(p, flip) == [Files[q.x], RanksTopDown[q.y]] == [key[0], key[1]];
  }

  /** Every grid position is the position of the square drawn there. */
  lemma XYRoundTrip(p: XY, flip: bool)
    requires 0 <= p.x <= 7 && 0 <= p.y <= 7
    ensures KeyToXY(XYToKey(p, flip), flip) == p
  {
    var key := XYToKey(p, flip);
    var q := if flip then Mirror(p) else p;
    var r := KeyToXY(key, false);
    KeyToXYOfSquare(key, false);
    assert Files[r.x] == Files[q.x] && RanksTopDown[r.y] == RanksTopDown[q.y];
    assert r == q by {
      FilesDistinct(r.x, q.x);
      RanksDistinct(r.y, q.y);
    }
  }

  lemma FilesDistinct(i: int, j: int)
    requires 0 <= i <= 7 && 0 <= j <= 7 && Files[i] == Files[j]
    ensures i == j
  {
  }

  lemma RanksDistinct(i: int, j: int)
    requires 0 <= i <= 7 && 0 <= j <= 7 && RanksTopDown[i] == RanksTopDown[j]
    ensures i == j
  {
  }

  /** For a fixed orientation, distinct squares are drawn at distinct positions. */
  lemma KeyToXYInjective(a: string, b: string, flip: bool)
    requires IsSquare(a) && IsSquare(b)
    requires KeyToXY(a, flip) == KeyToXY(b, flip)
    ensures a == b
  {
    KeyRoundTrip(a, flip);
    KeyRoundTrip(b, flip);
  }

  // ---------------------------------------------------------------------------
  // `hash.match(keyRegex)`: the global regular expression /[a-h][1-8]/g
  // scanned left to right, each match resuming after the previous one.

  predicate PairAt(s: string, i: int)
    requires 0 <= i < |s| - 1
  {
    IsFile(s[i]) && IsRank(s[i + 1])
  }

  /** All non-overlapping `keyRegex` tokens of `s`, left to right. */
  function Tokens(s: string): (t: seq<string>)
    ensures 2 * |t| <= |s|
    decreases |s|
  {
    if |s| < 2 then []
    else if PairAt(s, 0) then [s[..2]] + Tokens(s[2..])
    else Tokens(s[1..])
  }

  /** `String.prototype.match` with a global pattern: `null` when nothing matches. */
  function Match(s: string): (r: Option<seq<string>>)
    ensures r.Some? ==> |r.value| >= 1
  {
    var t := Tokens(s);
    if t == [] then None else Some(t)
  }

  /** Every token the scan returns is a square name. */
  lemma {:induction false} TokensAreSquares(s: string)
    ensures forall t :: t in Tokens(s) ==> IsSquare(t)
    decreases |s|
  {
    if |s| >= 2 {
      if PairAt(s, 0) {
        TokensAreSquares(s[2..]);
      } else {
        TokensAreSquares(s[1..]);
      }
    }
  }

  /** The position of the leftmost file-rank pair of `s`, or -1. */
  function LeftmostPair(s: string): (i: int)
    ensures i == -1 || 0 <= i < |s| - 1
    ensures i >= 0 ==> PairAt(s, i) && forall j :: 0 <= j < i ==> !PairAt(s, j)
    ensures i == -1 ==> forall j :: 0 <= j < |s| - 1 ==> !PairAt(s, j)
    decreases |s|
  {
    if |s| < 2 then -1
    else if PairAt(s, 0) then 0
    else
      var k := LeftmostPair(s[1..]);
      assert forall j :: 1 <= j < |s| - 1 ==> (PairAt(s, j) <==> PairAt(s[1..], j - 1));
      if k < 0 then -1 else k + 1
  }

  /**
   * The scan finds a token exactly when some file letter is directly followed
   * by a rank digit, and its first token is the leftmost such pair.
   */
  lemma {:induction false} TokensFirst(s: string)
    ensures Tokens(s) == [] <==> LeftmostPair(s) == -1
    ensures Tokens(s) != [] ==> Tokens(s)[0] == s[LeftmostPair(s)..LeftmostPair(s) + 2]
    decreases |s|
  {
    if |s| >= 2 && !PairAt(s, 0) {
      TokensFirst(s[1..]);
      var k := LeftmostPair(s[1..]);
      if k >= 0 {
        assert s[1..][k..k + 2] == s[k + 1..k + 3];
      }
    }
  }
}

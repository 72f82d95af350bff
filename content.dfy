/**
 * The content script's own logic: the colour lookup of its monolithic copy
 * (a settings entry is either a colour or a colour with a separate alpha),
 * the arrowhead ids keyed by the widget's stroke colour, and the bookkeeping
 * that watches every board container once, under a prefix of its own, and
 * re-renders a board on every change of its shapes until it leaves the page.
 */
module ContentScript {
  import opened Wrappers
  import opened Builtins
  import opened Defaults
  import opened Common
  import opened State
  import opened Svg
  import opened ArrowDefs
  import opened Highlights
  import opened Arrows

  // ---------------------------------------------------------------------------
  // The monolithic copy's colour lookup.

  /** A settings entry: a colour string, or an opaque colour with its alpha split off. */
  datatype ColorField = Plain(color: string) | WithAlpha(color: string, alpha: real)

  /** The content script's colour table holds an entry for every settings key. */
  predicate Complete(colors: map<string, ColorField>) {
    forall shape: Shape, n: Num :: ColorName(shape, n) in colors
  }

  /** `getColor` of the monolithic copy: the entry of the stroke colour's slot, its colour part. */
  function LegacyGetColor(colors: map<string, ColorField>, shape: Shape, lichessColor: string): (c: string)
    requires Complete(colors)
    ensures lichessColor !in LichessColors ==> c == colors[ColorName(shape, 1)].color
    ensures forall n: Num :: LichessColors[n - 1] == lichessColor ==> c == colors[ColorName(shape, n)].color
  {
    GetColorNumSpec(lichessColor);
    LichessColorsDistinct();
    colors[ColorName(shape, GetColorNum(lichessColor))].color
  }

  /** `getOpacity` of the monolithic copy: 1 for a plain colour, otherwise the split-off alpha. */
  function LegacyGetOpacity(colors: map<string, ColorField>, shape: Shape, lichessColor: string): (o: real)
    requires Complete(colors)
    ensures o == 1.0 || colors[ColorName(shape, GetColorNum(lichessColor))] == WithAlpha(LegacyGetColor(colors, shape, lichessColor), o)
  {
    match colors[ColorName(shape, GetColorNum(lichessColor))]
    case Plain(_) => 1.0
    case WithAlpha(_, a) => a
  }

  /**
   * The lookup reads the slot of the stroke colour: a listed colour its own
   * slot, any other colour slot 1. A plain entry is its own colour at full
   * opacity; a split entry gives its colour and its alpha.
   */
  lemma LegacyLookup(colors: map<string, ColorField>, shape: Shape, lichessColor: string)
    requires Complete(colors)
    ensures var f := colors[ColorName(shape, GetColorNum(lichessColor))];
      LegacyGetColor(colors, shape, lichessColor) == f.color &&
      (f.Plain? ==> LegacyGetOpacity(colors, shape, lichessColor) == 1.0) &&
      (f.WithAlpha? ==> LegacyGetOpacity(colors, shape, lichessColor) == f.alpha)
    ensures lichessColor !in LichessColors ==>
      LegacyGetColor(colors, shape, lichessColor) == colors[ColorName(shape, 1)].color
    ensures forall i :: 0 <= i < |LichessColors| ==>
      LegacyGetColor(colors, shape, LichessColors[i]) == colors[ColorName(shape, i + 1)].color
  {
    GetColorNumSpec(lichessColor);
    forall i | 0 <= i < |LichessColors| ensures GetColorNum(LichessColors[i]) == i + 1 {
      GetColorNumOfPalette(i + 1);
    }
  }

  /** The table the content script starts from: every `defaults` colour as a plain entry. */
  function DefaultFields(): (colors: map<string, ColorField>)
    ensures Complete(colors)
    ensures forall k :: k in colors <==> k in DefaultsTable
  {
    forall shape: Shape, n: Num ensures ColorName(shape, n) in DefaultsTable {
      ColorNameListed(shape, n);
    }
    map k | k in DefaultsTable :: Plain(DefaultsTable[k])
  }

  /** Before the stored settings arrive, every lookup is a `defaults` colour at opacity 1. */
  lemma DefaultFieldsLookup(shape: Shape, lichessColor: string)
    ensures ColorName(shape, GetColorNum(lichessColor)) in DefaultsTable
    ensures LegacyGetColor(DefaultFields(), shape, lichessColor) == DefaultsTable[ColorName(shape, GetColorNum(lichessColor))]
    ensures LegacyGetOpacity(DefaultFields(), shape, lichessColor) == 1.0
  {
    ColorNameListed(shape, GetColorNum(lichessColor));
  }

  /** `capId` of the monolithic copy: the arrowhead id of the stroke colour's slot. */
  function LegacyCapId(prefix: string, lichessColor: string): (id: string)
    ensures id == CapId(prefix, GetColorNum(lichessColor))
  {
    prefix + "arrowhead" + NumberToString(GetColorNum(lichessColor))
  }

  /** `getCap` of the monolithic copy. */
  function LegacyGetCap(prefix: string, lichessColor: string): (cap: string)
    ensures cap == GetCap(prefix, GetColorNum(lichessColor))
  {
    "url(#" + LegacyCapId(prefix, lichessColor) + ")"
  }

  /**
   * Two stroke colours share an arrowhead exactly when they fall in the same
   * slot; every unlisted colour shares slot 1's.
   */
  lemma LegacyCapShared(prefix: string, a: string, b: string)
    ensures LegacyCapId(prefix, a) == LegacyCapId(prefix, b) <==> GetColorNum(a) == GetColorNum(b)
    ensures a !in LichessColors ==> LegacyCapId(prefix, a) == CapId(prefix, 1)
  {
    GetColorNumSpec(a);
    if LegacyCapId(prefix, a) == LegacyCapId(prefix, b) {
      CapIdInjective(prefix, GetColorNum(a), GetColorNum(b));
    }
  }

  // ---------------------------------------------------------------------------
  // Board prefixes.

  /** `board${n}_`: the id prefix of the n-th board watched. */
  function Prefix(n: nat): (p: string)
    ensures |p| == |NumberToString(n)| + 6
  {
    "board" + NumberToString(n) + "_"
  }

  /** Distinct counters give distinct prefixes. */
  lemma PrefixInjective(a: nat, b: nat)
    requires Prefix(a) == Prefix(b)
    ensures a == b
  {
    var p := Prefix(a);
    assert NumberToString(a) == p[5..|p| - 1] == NumberToString(b);
    NumberToStringInjective(a, b);
  }

  /**
   * The arrowhead ids of two boards never collide: an id names one board and
   * one slot. (Prefixes differ in length or in their digits, and the rest of
   * an id has a fixed length.)
   */
  lemma CapIdsAcrossBoards(a: nat, b: nat, i: Num, j: Num)
    requires CapId(Prefix(a), i) == CapId(Prefix(b), j)
    ensures a == b && i == j
  {
    var x, y := CapId(Prefix(a), i), CapId(Prefix(b), j);
    CapIdShape(Prefix(a), i);
    CapIdShape(Prefix(b), j);
    assert |Prefix(a)| == |Prefix(b)|;
    assert Prefix(a) == x[..|Prefix(a)|] == y[..|Prefix(b)|] == Prefix(b);
    PrefixInjective(a, b);
    CapIdInjective(Prefix(a), i, j);
  }

  // ---------------------------------------------------------------------------
  // Watching boards.

  /** A `cg-container` element: whether it holds a `cg-shapes` and a `cg-board` element. */
  class CgContainer {
    const hasShapes: bool
    const hasBoard: bool

    constructor (hasShapes: bool, hasBoard: bool)
      ensures this.hasShapes == hasShapes && this.hasBoard == hasBoard
    {
      this.hasShapes := hasShapes;
      this.hasBoard := hasBoard;
    }
  }

  /** The shape observer of one board. */
  class ShapeObserver {
    const container: CgContainer
    const prefix: string
    var connected: bool

    constructor (container: CgContainer, prefix: string)
      ensures this.container == container && this.prefix == prefix && connected
    {
      this.container := container;
      this.prefix := prefix;
      connected := true;
    }
  }

  /** The containers `findNewChessgrounds` hands to `watchChessground`, in order, given the set already seen. */
  function NewContainers(list: seq<CgContainer>, seen: set<CgContainer>): seq<CgContainer>
    decreases |list|
  {
    if list == [] then []
    else if list[0] in seen then NewContainers(list[1..], seen)
    else [list[0]] + NewContainers(list[1..], seen + {list[0]})
  }

  /**
   * Every container is handed over once at most: the ones handed over were
   * neither seen before nor handed over twice, and every container of the
   * list not seen before is handed over.
   */
  lemma {:induction false} NewContainersOnce(list: seq<CgContainer>, seen: set<CgContainer>)
    ensures forall c :: c in NewContainers(list, seen) ==> c in list && c !in seen
    ensures forall c :: c in list && c !in seen ==> c in NewContainers(list, seen)
    ensures forall i, j :: 0 <= i < j < |NewContainers(list, seen)| ==> NewContainers(list, seen)[i] != NewContainers(list, seen)[j]
    decreases |list|
  {
    if list != [] {
      var rest := list[1..];
      if list[0] in seen {
        NewContainersOnce(rest, seen);
        forall c | c in list && c !in seen ensures c in NewContainers(list, seen) {
          assert c in rest;
        }
      } else {
        var seen' := seen + {list[0]};
        NewContainersOnce(rest, seen');
        var tail := NewContainers(rest, seen');
        assert NewContainers(list, seen) == [list[0]] + tail;
        forall c | c in list && c !in seen ensures c in NewContainers(list, seen) {
          if c != list[0] {
            assert c in rest;
          }
        }
        forall i, j | 0 <= i < j < |NewContainers(list, seen)| ensures NewContainers(list, seen)[i] != NewContainers(list, seen)[j] {
          if i == 0 {
            assert NewContainers(list, seen)[j] == tail[j - 1];
          } else {
            assert NewContainers(list, seen)[i] == tail[i - 1] && NewContainers(list, seen)[j] == tail[j - 1];
          }
        }
      }
    }
  }

  /**
   * The boards that get an observer when `containers` are watched in order
   * from counter value `start`: each container with both a shapes layer and a
   * board, paired with the prefix its call issued.
   */
  function ObservedFrom(containers: seq<CgContainer>, start: nat): (r: seq<(CgContainer, string)>)
    ensures |r| <= |containers|
    decreases |containers|
  {
    if containers == [] then []
    else
      var c := containers[0];
      (if c.hasShapes && c.hasBoard then [(c, Prefix(start))] else []) + ObservedFrom(containers[1..], start + 1)
  }

  /** Every board observed from a run of containers is one of them, with shapes and a board, under the prefix of its own call. */
  lemma {:induction false} ObservedFromIndex(containers: seq<CgContainer>, start: nat, p: (CgContainer, string)) returns (j: nat)
    requires p in ObservedFrom(containers, start)
    ensures j < |containers| && p == (containers[j], Prefix(start + j))
    ensures containers[j].hasShapes && containers[j].hasBoard
    decreases |containers|
  {
    var c, rest := containers[0], containers[1..];
    var head := if c.hasShapes && c.hasBoard then [(c, Prefix(start))] else [];
    assert ObservedFrom(containers, start) == head + ObservedFrom(rest, start + 1);
    if p in head {
      j := 0;
    } else {
      var k := ObservedFromIndex(rest, start + 1, p);
      j := k + 1;
      assert containers[j] == rest[k] && start + j == start + 1 + k;
    }
  }

  /** Every container with shapes and a board is observed, under the prefix of its own call. */
  lemma {:induction false} ObservedFromAt(containers: seq<CgContainer>, start: nat, j: nat)
    requires j < |containers| && containers[j].hasShapes && containers[j].hasBoard
    ensures (containers[j], Prefix(start + j)) in ObservedFrom(containers, start)
    decreases j
  {
    var c, rest := containers[0], containers[1..];
    var head := if c.hasShapes && c.hasBoard then [(c, Prefix(start))] else [];
    assert ObservedFrom(containers, start) == head + ObservedFrom(rest, start + 1);
    if j == 0 {
      assert (c, Prefix(start + 0)) in head;
    } else {
      ObservedFromAt(rest, start + 1, j - 1);
      assert rest[j - 1] == containers[j] && start + 1 + (j - 1) == start + j;
    }
  }

  /** The container and prefix of each observer. */
  function Handles(observers: seq<ShapeObserver>): (r: seq<(CgContainer, string)>)
    ensures |r| == |observers|
  {
    seq(|observers|, i requires 0 <= i < |observers| => (observers[i].container, observers[i].prefix))
  }

  /** The module-level state of the content script's board bookkeeping. */
  class Watcher {
    /** The `chessgrounds` set of containers already found. */
    var seen: set<CgContainer>
    /** `uniqueCounter`. */
    var counter: nat
    /** Every prefix `watchChessground` has issued, in order. */
    var issued: seq<string>
    /** Every container `watchChessground` was called for, in order. */
    var watched: seq<CgContainer>
    /** The observers of the boards being watched. */
    var observers: seq<ShapeObserver>

    /** The n-th call issued `board${n}_`. */
    ghost predicate Valid()
      reads this
    {
      |issued| == counter && |watched| == counter &&
      forall k :: 0 <= k < counter ==> issued[k] == Prefix(k)
    }

    constructor ()
      ensures Valid() && seen == {} && counter == 0 && observers == []
    {
      seen := {};
      counter := 0;
      issued := [];
      watched := [];
      observers := [];
    }

    /**
     * `watchChessground`: issues the next prefix and advances the counter
     * whatever happens; then, only when the container holds both a shapes
     * layer and a board, starts an observer for it under that prefix.
     */
    method WatchChessground(c: CgContainer) returns (obs: ShapeObserver?)
      requires Valid()
      modifies this
      ensures Valid()
      ensures seen == old(seen)
      ensures counter == old(counter) + 1
      ensures issued == old(issued) + [Prefix(old(counter))]
      ensures watched == old(watched) + [c]
      ensures !(c.hasShapes && c.hasBoard) ==> obs == null && observers == old(observers)
      ensures c.hasShapes && c.hasBoard ==>
        obs != null && fresh(obs) && obs.container == c && obs.prefix == Prefix(old(counter)) && obs.connected &&
        observers == old(observers) + [obs]
    {
      var prefix := Prefix(counter);
      counter := counter + 1;
      issued := issued + [prefix];
      watched := watched + [c];
      if !c.hasShapes || !c.hasBoard {
        return null;
      }
      obs := new ShapeObserver(c, prefix);
      observers := observers + [obs];
    }

    /**
     * One pass of `findNewChessgrounds`'s loop: a container not seen before is
     * added to the seen set and watched; a container seen before is left
     * alone. `added` holds the observer the call started, if any.
     */
    method FindOne(c: CgContainer) returns (added: seq<ShapeObserver>)
      requires Valid()
      modifies this
      ensures Valid()
      ensures seen == old(seen) + {c}
      ensures watched == if c in old(seen) then old(watched) else old(watched) + [c]
      ensures counter == if c in old(seen) then old(counter) else old(counter) + 1
      ensures observers == old(observers) + added
      ensures Handles(added) == if c in old(seen) then [] else ObservedFrom([c], old(counter))
      ensures forall o :: o in added ==> fresh(o)
      ensures Connected(added)
    {
      added := [];
      if c !in seen {
        ObservedFromCons(c, [], counter);
        seen := seen + {c};
        var obs := WatchChessground(c);
        if obs != null {
          added := [obs];
        }
      }
    }

    /**
     * `findNewChessgrounds`: every container of the list not seen before is
     * added to the seen set and watched, once, in list order. The new
     * observers follow the old ones: one per qualifying new container, in
     * list order, each under the prefix its call issued.
     */
    method FindNewChessgrounds(list: seq<CgContainer>)
      requires Valid()
      modifies this
      ensures Valid()
      ensures seen == old(seen) + set c | c in list
      ensures watched == old(watched) + NewContainers(list, old(seen))
      ensures counter == old(counter) + |NewContainers(list, old(seen))|
      ensures |old(observers)| <= |observers| && observers[..|old(observers)|] == old(observers)
      ensures Handles(observers[|old(observers)|..]) == ObservedFrom(NewContainers(list, old(seen)), old(counter))
      ensures forall o :: o in observers[|old(observers)|..] ==> fresh(o) && o.connected
    {
      ghost var added: seq<ShapeObserver> := [];
      var i := 0;
      assert list[..0] == [] && list[0..] == list;
      while i < |list|
        invariant 0 <= i <= |list|
        invariant Valid()
        invariant observers == old(observers) + added
        invariant Progress(list, i, old(seen), old(watched), old(counter), seen, watched, counter, Handles(added))
        invariant forall o :: o in added ==> fresh(o)
        invariant Connected(added)
      {
        var more := FindAt(list, i, old(seen), old(watched), old(counter), added);
        Associative(old(observers), added, more);
        added := added + more;
        i := i + 1;
      }
      ProgressDone(list, old(seen), old(watched), old(counter), seen, watched, counter, Handles(added));
      assert Members(list) == set c | c in list;
      assert observers[|old(observers)|..] == added;
    }

    /** One pass of `findNewChessgrounds`'s loop: `FindOne` on the i-th container, keeping the loop's progress. */
    method FindAt(list: seq<CgContainer>, i: int, ghost seen0: set<CgContainer>, ghost watched0: seq<CgContainer>,
                ghost counter0: nat, ghost added: seq<ShapeObserver>) returns (more: seq<ShapeObserver>)
      requires Valid() && i < |list|
      requires Progress(list, i, seen0, watched0, counter0, seen, watched, counter, Handles(added))
      modifies this
      ensures Valid()
      ensures observers == old(observers) + more
      ensures Progress(list, i + 1, seen0, watched0, counter0, seen, watched, counter, Handles(added + more))
      ensures forall o :: o in more ==> fresh(o)
      ensures Connected(more)
    {
      ghost var k, s0, w := counter, seen, watched;
      more := FindOne(list[i]);
      HandlesAppend(added, more);
      ProgressStep(list, i, seen0, watched0, counter0, s0, w, k, Handles(added), Handles(more));
    }
  }

  /** Every observer of the sequence is connected. */
  ghost predicate Connected(observers: seq<ShapeObserver>)
    reads set o | o in observers
  {
    forall o :: o in observers ==> o.connected
  }

  /** Proof step of the loop lemmas below: regrouping a concatenation. */
  lemma Associative<T>(a: seq<T>, b: seq<T>, c: seq<T>)
    ensures (a + b) + c == a + (b + c)
  {
  }

  /** Watching `c` and then `rest` observes `c` first, when it qualifies, then the rest one counter value later. */
  lemma ObservedFromCons(c: CgContainer, rest: seq<CgContainer>, start: nat)
    ensures ObservedFrom([c] + rest, start) ==
      (if c.hasShapes && c.hasBoard then [(c, Prefix(start))] else []) + ObservedFrom(rest, start + 1)
  {
    assert ([c] + rest)[1..] == rest;
  }

  /** One container of the list: watched when not seen before, skipped otherwise; either way it is seen afterwards. */
  lemma NewContainersStep(list: seq<CgContainer>, i: int, seen: set<CgContainer>)
    requires 0 <= i < |list|
    ensures list[i] in seen ==> NewContainers(list[i..], seen) == NewContainers(list[i + 1..], seen + {list[i]})
    ensures list[i] !in seen ==> NewContainers(list[i..], seen) == [list[i]] + NewContainers(list[i + 1..], seen + {list[i]})
  {
    assert list[i..][1..] == list[i + 1..];
    if list[i] in seen {
      assert seen + {list[i]} == seen;
    }
  }

  /**
   * Where `findNewChessgrounds` stands after the first i containers of the
   * list, starting from seen set `seen0`, watched list `watched0` and counter
   * `counter0`: the containers met so far are seen, and what remains to be
   * watched and observed completes the whole call's watched list and
   * observers.
   */
  ghost predicate Progress(list: seq<CgContainer>, i: int,
                           seen0: set<CgContainer>, watched0: seq<CgContainer>, counter0: nat,
                           seen: set<CgContainer>, watched: seq<CgContainer>, counter: nat,
                           observed: seq<(CgContainer, string)>)
  {
    0 <= i <= |list| &&
    seen == seen0 + Members(list[..i]) &&
    watched + NewContainers(list[i..], seen) == watched0 + NewContainers(list, seen0) &&
    counter - |watched| == counter0 - |watched0| &&
    observed + ObservedFrom(NewContainers(list[i..], seen), counter) == ObservedFrom(NewContainers(list, seen0), counter0)
  }

  /** One pass of `findNewChessgrounds`'s loop keeps its progress. */
  lemma ProgressStep(list: seq<CgContainer>, i: int,
                     seen0: set<CgContainer>, watched0: seq<CgContainer>, counter0: nat,
                     seen: set<CgContainer>, watched: seq<CgContainer>, counter: nat,
                     observed: seq<(CgContainer, string)>, more: seq<(CgContainer, string)>)
    requires Progress(list, i, seen0, watched0, counter0, seen, watched, counter, observed)
    requires i < |list|
    requires more == if list[i] in seen then [] else ObservedFrom([list[i]], counter)
    ensures Progress(list, i + 1, seen0, watched0, counter0, seen + {list[i]},
                     if list[i] in seen then watched else watched + [list[i]],
                     if list[i] in seen then counter else counter + 1,
                     observed + more)
  {
    ObservedStep(list, i, seen, counter, observed, more, ObservedFrom(NewContainers(list, seen0), counter0));
    WatchedStep(list, i, seen, watched, watched0 + NewContainers(list, seen0));
    SeenStep(list, i);
  }

  /** At the end of the list, the progress is the whole call's effect. */
  lemma ProgressDone(list: seq<CgContainer>,
                     seen0: set<CgContainer>, watched0: seq<CgContainer>, counter0: nat,
                     seen: set<CgContainer>, watched: seq<CgContainer>, counter: nat,
                     observed: seq<(CgContainer, string)>)
    requires Progress(list, |list|, seen0, watched0, counter0, seen, watched, counter, observed)
    ensures seen == seen0 + Members(list)
    ensures watched == watched0 + NewContainers(list, seen0)
    ensures counter == counter0 + |NewContainers(list, seen0)|
    ensures observed == ObservedFrom(NewContainers(list, seen0), counter0)
  {
    assert list[..|list|] == list;
    assert list[|list|..] == [];
    assert watched + [] == watched;
    assert observed + [] == observed;
  }

  /** The observer bookkeeping of one pass of `findNewChessgrounds`'s loop. */
  lemma ObservedStep(list: seq<CgContainer>, i: int, seen: set<CgContainer>, k: nat,
                     done: seq<(CgContainer, string)>, more: seq<(CgContainer, string)>, target: seq<(CgContainer, string)>)
    requires 0 <= i < |list|
    requires done + ObservedFrom(NewContainers(list[i..], seen), k) == target
    requires more == if list[i] in seen then [] else ObservedFrom([list[i]], k)
    ensures (done + more) + ObservedFrom(NewContainers(list[i + 1..], seen + {list[i]}), if list[i] in seen then k else k + 1) == target
  {
    var c, rest := list[i], NewContainers(list[i + 1..], seen + {list[i]});
    NewContainersStep(list, i, seen);
    if c !in seen {
      var x := if c.hasShapes && c.hasBoard then [(c, Prefix(k))] else [];
      ObservedFromCons(c, [], k);
      assert more == x + [] == x;
      ObservedFromCons(c, rest, k);
      assert ObservedFrom(NewContainers(list[i..], seen), k) == x + ObservedFrom(rest, k + 1);
      Associative(done, x, ObservedFrom(rest, k + 1));
    } else {
      assert done + [] == done;
    }
  }

  /** The watched list of one pass of `findNewChessgrounds`'s loop. */
  lemma WatchedStep(list: seq<CgContainer>, i: int, seen: set<CgContainer>, w: seq<CgContainer>, target: seq<CgContainer>)
    requires 0 <= i < |list|
    requires w + NewContainers(list[i..], seen) == target
    ensures (if list[i] in seen then w else w + [list[i]]) + NewContainers(list[i + 1..], seen + {list[i]}) == target
  {
    NewContainersStep(list, i, seen);
    Associative(w, [list[i]], NewContainers(list[i + 1..], seen + {list[i]}));
  }

  /** The containers of a sequence, as a set. */
  function Members(list: seq<CgContainer>): set<CgContainer> {
    set c | c in list
  }

  /** The containers met in the first i + 1 passes. */
  lemma SeenStep(list: seq<CgContainer>, i: int)
    requires 0 <= i < |list|
    ensures Members(list[..i + 1]) == Members(list[..i]) + {list[i]}
  {
    assert list[..i + 1] == list[..i] + [list[i]];
  }

  /** Proof step of `FindAt`: the handles of two runs of observers are the handles of each, in order. */
  lemma HandlesAppend(a: seq<ShapeObserver>, b: seq<ShapeObserver>)
    ensures Handles(a + b) == Handles(a) + Handles(b)
  {
  }

  /** Prefixes issued by one content script never repeat. */
  lemma IssuedDistinct(w: Watcher, i: int, j: int)
    requires w.Valid()
    requires 0 <= i < j < |w.issued|
    ensures w.issued[i] != w.issued[j]
  {
    if w.issued[i] == w.issued[j] {
      PrefixInjective(i, j);
    }
  }

  // ---------------------------------------------------------------------------
  // Re-rendering a board.

  /**
   * `shapeCallback`: when the board has left the page, disconnects the
   * observer and renders nothing; otherwise rebuilds the highlights, then the
   * arrows, under the observer's prefix. When the highlight rebuild throws,
   * the exception leaves the callback and the arrows are not rebuilt.
   */
  method ShapeCallback(obs: ShapeObserver, attached: bool, highlights: HighlightLayer?, arrows: ArrowSvg?,
                       circles: seq<CircleShape>, lines: seq<LineShape>, board: BoardView, st: ColorState)
    returns (hl: HighlightLayer?, svg: ArrowSvg?)
    requires obs.connected
    requires st.Valid()
    modifies obs, highlights, arrows
    ensures !attached ==> !obs.connected && hl == highlights && svg == arrows
    ensures !attached && highlights != null ==> highlights.children == old(highlights.children)
    ensures attached ==> obs.connected == old(obs.connected)
    ensures attached ==> hl != null && hl.children == HighlightsFor(circles, board.flip, st.PaletteOf(Square), st.GetOpacity(Square))
    ensures attached && highlights != null ==> hl == highlights
    ensures (!attached || RebuildThrows(circles)) ==> svg == arrows
    ensures (!attached || RebuildThrows(circles)) && arrows != null ==>
      arrows.children == old(arrows.children) && arrows.opacity == old(arrows.opacity)
    ensures attached && !RebuildThrows(circles) ==> svg != null
    ensures attached && !RebuildThrows(circles) && arrows != null ==> svg == arrows && arrows.opacity == old(arrows.opacity)
    ensures attached && !RebuildThrows(circles) && svg != null ==>
      svg.children == ArrowLayer(lines, board.flip, MaskFn(board), obs.prefix, DefsFor(obs.prefix, st), st.PaletteOf(Arrow))
  {
    if !attached {
      obs.connected := false;
      return highlights, arrows;
    }
    var drawn;
    hl, drawn := UpdateHighlights(highlights, circles, board.flip, st);
    if !drawn {
      return hl, arrows;
    }
    var completed;
    svg, completed := UpdateArrows(arrows, lines, board, obs.prefix, st);
  }
}

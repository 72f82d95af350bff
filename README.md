# fancyground, modelled in Dafny

fancyground is a browser extension that restyles the move annotations a chess
board widget draws on a page. The widget draws circles (highlighted squares)
and lines (arrows) in its own shape layer. For every board on the page the
extension watches that layer. On every change it rebuilds its own overlay: a
container of `<highlight>` elements and an `<svg>` layer of arrows. The
overlay uses the user's colours, one per colour slot and shape kind, and
opacities per shape kind. It adds arrowhead markers per slot, and masks that
keep an arrow from being drawn over the piece on its origin square. When the
options page changes a colour or an opacity, the overlay is patched in place.

The model covers:

- `Builtins`: the JavaScript built-ins the code relies on. These are `indexOf`
  and the decimal text of a small integer.
- `Defaults`: the colour slots, shape kinds, settings names, the `defaults`
  table and the widget's four stroke colours. It also holds `getColorNum`,
  which maps a stroke colour to its slot.
- `Common`: `keyToXY`, the board geometry, with its flip mirror, and the
  square tokens `keyRegex` finds in a shape's `cgHash`.
- `State`: the content script's colour and opacity table, as a class with
  `initState`, `getColor`, `getOpacity`, `setColor` and `setOpacity`.
- `Svg`: the overlay markup the arrow renderer produces, and the arrow layer
  object.
- `ArrowDefs`: arrowhead ids and markers (`capId`, `getCap`, `createDefs`),
  and the piece lookup (`createPxTransform`, the quote split of
  `getPieceImageUrl`). It also covers the mask built from a piece's image
  (`createImage`, `createMask`).
- `Scan`: the loop shape both renderers share. It maps shapes in order, up to
  the first one that yields nothing.
- `Highlights`: `getCircleKey`, `createTransform`, `createHighlight` and the
  clear-and-rebuild loop of `updateHighlights`.
- `Arrows`: `getArrowUci`, `getArrowWidth`, `uciToCoords`, `createArrow` and
  the `updateArrows` rebuild. It also covers the in-place patches
  `updateArrowColor`, `updateArrowColorAll` and `updateArrowOpacity`.
- `ContentScript` (`src/index.ts`) covers:
  - the colour lookup of the monolithic content script, whose entries are a
    colour or a colour/alpha pair, and its `capId`/`getCap`
  - the board prefixes `board${n}_`
  - `findNewChessgrounds` and `watchChessground`, with the seen set and the
    counter
  - the disconnect gate of `shapeCallback`
- `Swatches`: the options page's swatch row (`setColors`, `setColor`,
  `switchActiveColor`, the initial active name and a click on a swatch).

The DOM is abstracted to values:

- A widget circle is its `cgHash`, `stroke` and `opacity` attributes. A line
  also has a `stroke-width`.
- A board is its orientation, its width and a map from each piece's inline
  transform to the piece's computed `background-image`.
- An overlay layer is an object whose `children` sequence the renderers
  rewrite.

## Behaviour of the source worth knowing

- The mask of an arrow is made for the piece on the arrow's origin square:
  `createMask` is called with `uci.slice(0, 2)`.
- The highlight loop stops at the first circle without a square. The arrow
  loop stops at the first line without a move, where `uciToCoords` throws on
  the undefined move.
- A hash with no square at all makes `key.length` throw (see Findings).
- Squares are read by scanning `cgHash` for file-rank pairs with `keyRegex`.
- Highlights carry their square as `data-key`.
- `initState` copies every settings key of its argument. The fallback to
  defaults for missing keys belongs to the storage call, which is not part of
  this model.
- The highlight renderer passes the circle's stroke colour to `getColor`,
  whose signature takes a slot number. The arrow renderer imports
  `getColorNum` from `defaults.ts`, which does not define it. The model
  resolves a colour to its slot with the `getColorNum` of `src/index.ts`:
  position + 1 in the widget's colour list, and 1 for any other colour.

## Model

| member | source | states |
|---|---|---|
| Builtins.IndexOfSpec | src/render/common.ts:3-4 | `indexOf` is -1 exactly for a missing element, otherwise the first position holding it |
| Builtins.NumberToStringInjective | src/render/arrows/defs/render.ts:14-16 | distinct slot numbers print as distinct text inside an id |
| Builtins.NumberToStringDigits | src/render/arrows/defs/render.ts:14-16 | a number's text is made of decimal digits only |
| Scan.MapUntilNoneShape | src/render/highlights/render.ts:9-15 | a rebuild loop's k-th output comes from the k-th input, and when it stops early the next input yields nothing |
| Scan.MapUntilNoneImages | src/render/highlights/render.ts:9-15 | every output of a rebuild loop is the image of some input |
| Scan.MapUntilNoneStep | src/render/highlights/render.ts:9-15 | one pass of a rebuild loop either ends with the whole result or appends the next image |
| Defaults.ColorName | src/defaults.ts:4 | a settings name `${shape}_color_${n}` ends with the slot's digit |
| Defaults.ColorNameListed | src/defaults.ts:10-19 | every (shape, slot) name is a key of `defaults` |
| Defaults.ColorNameInjective | src/defaults.ts:4 | distinct (shape, slot) pairs name distinct settings |
| Defaults.DefaultsCoverEveryName | src/defaults.ts:10-19 | `defaults` has exactly eight distinct keys, one per (shape, slot) pair |
| Defaults.LichessColorsDistinct | src/defaults.ts:21-26 | the widget's four stroke colours are distinct |
| Defaults.GetColorNum | src/index.ts:16-20 | the slot is 1 or the one listing the stroke colour |
| Defaults.StrokeNum | src/render/arrows/render.ts:14-15 | a missing or unlisted stroke reads slot 1; a listed stroke reads the slot that lists it |
| Defaults.GetColorNumSpec | src/index.ts:16-20 | a listed stroke colour resolves to the slot that holds it, any other colour to slot 1 |
| Defaults.GetColorNumOfPalette | src/index.ts:16-20 | the colour listed at slot n resolves back to n |
| Common.FileIndexIsIndexOf | src/render/common.ts:3 | the file's x equals `'abcdefgh'.indexOf`, and the file letters are exactly that string's characters |
| Common.RankRowIsIndexOf | src/render/common.ts:4 | the rank's y equals `'87654321'.indexOf` (rank 8 is y = 0), and the rank digits are exactly that string's characters |
| Common.KeyToXY | src/render/common.ts:1-11 | a square is drawn at a position with both coordinates in 0..7 |
| Common.Tokens | src/render/common.ts:13 | the tokens of a global `keyRegex` scan are two characters each, so there are at most half as many as characters |
| Common.KeyToXYOfSquare | src/render/common.ts:1-11 | for a square both coordinates lie in 0..7; unflipped they index the file in "abcdefgh" and the rank in "87654321", flipped the mirrored ones do |
| Common.KeyToXYOfNonSquare | src/render/common.ts:2-5 | a missing or unrecognised file or rank gives -1 on that axis, 8 when flipped, and nothing fails |
| Common.KeyToXYFlip | src/render/common.ts:6-9 | the flipped position is the mirror (7 - x, 7 - y) of the unflipped one |
| Common.MirrorInvolution | src/render/common.ts:6-9 | mirroring twice restores the position |
| Common.XYToKey | src/render/common.ts:1-11 | the square drawn at a grid position is a valid square |
| Common.KeyRoundTrip | src/render/common.ts:1-11 | reading back the square at a square's position gives that square |
| Common.XYRoundTrip | src/render/common.ts:1-11 | every grid position is the position of the square drawn there |
| Common.KeyToXYInjective | src/render/common.ts:1-11 | for a fixed orientation, distinct squares are drawn at distinct positions |
| Common.Match | src/render/common.ts:13 | a global match is `null` or holds at least one token |
| Common.TokensAreSquares | src/render/common.ts:13 | every token the scan returns is one file letter and one rank digit |
| Common.LeftmostPair | src/render/common.ts:13 | locates the leftmost file-rank pair, or reports that there is none |
| Common.TokensFirst | src/render/common.ts:13 | the scan finds a token exactly when some file letter is followed by a rank digit, and its first token is the leftmost such pair |
| State.Palette.With | src/state.ts:31-34 | setting one slot changes that slot and no other colour number |
| State.ColorState.constructor | src/state.ts:8 | the table starts as `defaults`, every slot populated, both opacities unset |
| State.ColorState.GetColor | src/state.ts:19-23 | colour number 0 reads the neutral grey, a slot reads its `${shape}_color_${n}` entry |
| State.ColorState.GetOpacity | src/state.ts:25-27 | a shape kind reads its own opacity entry |
| State.ColorState.PaletteOf | src/state.ts:19-23 | the palette of a shape kind agrees with `getColor` at every colour number |
| State.ColorState.InitState | src/state.ts:10-16 | every settings key is copied, other entries are kept, and both opacities are taken from the argument |
| State.ColorState.SetColor | src/state.ts:31-34 | exactly one slot changes, to the new colour; every other (shape, number) reads as before; the shape's palette is the old one with that slot set |
| State.ColorState.SetOpacity | src/state.ts:36-38 | one shape kind's opacity changes; the colours and the other opacity do not |
| State.FreshStateReadsDefaults | src/state.ts:8 | before any settings load, every slot reads its built-in default |
| Svg.ArrowSvg.constructor | src/render/arrows/render.ts:90-97 | a new layer is empty and at the given arrow opacity |
| ArrowDefs.CapId | src/render/arrows/defs/render.ts:14-16 | an arrowhead id is the prefix plus ten characters |
| ArrowDefs.CapIdShape | src/render/arrows/defs/render.ts:14-16 | an arrowhead id starts with the board prefix and ends with the slot's digit |
| ArrowDefs.CapIdInjective | src/render/arrows/defs/render.ts:14-16 | on one board, distinct slots have distinct arrowhead ids |
| ArrowDefs.GetCap | src/render/arrows/defs/render.ts:18-20 | a cap is the prefix plus sixteen characters |
| ArrowDefs.GetCapShape | src/render/arrows/defs/render.ts:18-20 | a cap is `url(#` + the arrowhead id + `)`, and distinct slots give distinct caps |
| ArrowDefs.CreateMarker | src/render/arrows/defs/render.ts:22-38 | a marker has the slot's arrowhead id, is tagged with the slot and is filled with the slot's arrow colour |
| ArrowDefs.DefsFor | src/render/arrows/defs/render.ts:5-12 | the defs hold one marker per widget colour, slots 1..4 in ascending order |
| ArrowDefs.CreateDefs | src/render/arrows/defs/render.ts:5-12 | the loop appends exactly the markers of slots 1..4, in order |
| ArrowDefs.DefsIdsDistinct | src/render/arrows/defs/render.ts:5-16 | the markers of one board have pairwise distinct ids |
| ArrowDefs.CreatePxTransform | src/render/arrows/defs/render.ts:112-118 | x is the grid x scaled by a square's width; the one-argument form is used exactly when the scaled y is 0 |
| ArrowDefs.PxTransformShortForm | src/render/arrows/defs/render.ts:112-118 | on a board of non-zero width, the short form is used exactly for the top row |
| ArrowDefs.SplitQuotes | src/render/arrows/defs/render.ts:64 | splitting on quotes gives at least one field, and no field holds a quote |
| ArrowDefs.SplitQuoteFree | src/render/arrows/defs/render.ts:64 | a string without quotes splits into itself alone |
| ArrowDefs.SplitAtQuote | src/render/arrows/defs/render.ts:64 | a quote ends the first field and splitting resumes after it |
| ArrowDefs.SplitQuotesFieldCount | src/render/arrows/defs/render.ts:64-65 | there are at least two fields exactly when the string holds a quote |
| ArrowDefs.UrlOfBackground | src/render/arrows/defs/render.ts:64-66 | there is no URL exactly when the background holds no quote |
| ArrowDefs.UrlBetweenQuotes | src/render/arrows/defs/render.ts:64-66 | for `url("…")`, the URL is the text between the first two quotes |
| ArrowDefs.PieceImageUrl | src/render/arrows/defs/render.ts:59-67 | no URL when no piece carries the square's pixel transform, otherwise that piece's background split on quotes |
| ArrowDefs.MaskSource | src/render/arrows/defs/render.ts:41-43 | a mask is made exactly when the piece lookup gives a non-empty URL |
| ArrowDefs.CreateImage | src/render/arrows/defs/render.ts:98-110 | the silhouette is one square in size, at (x - 0.5, y - 0.5) for the square's position, drawn through the board's black filter |
| ArrowDefs.MaskNodes | src/render/arrows/defs/render.ts:44-55 | `createMask` adds a mask with id prefix + square, then the board's filter |
| ArrowDefs.CreateMask | src/render/arrows/defs/render.ts:41-56 | no URL: returns none and adds nothing; otherwise returns prefix + square, with the mask and then the filter in front of the old children |
| Highlights.CircleKeyAsWritten | src/render/highlights/render.ts:25-31 | as written: no key without a hash; a hash holding no square throws; otherwise the first token |
| Highlights.CircleKeyAsWrittenThrows | src/render/highlights/render.ts:28-29 | the hash "x" makes `getCircleKey` throw |
| Highlights.CircleKey | src/render/highlights/render.ts:25-31 | a circle's key, when it has one, is a valid square |
| Highlights.CircleKeyLeftmost | src/render/highlights/render.ts:25-31 | a circle has a key exactly when its hash holds a file-rank pair, and the key is the leftmost one |
| Highlights.CircleKeyAgrees | src/render/highlights/render.ts:25-31 | wherever the code as written does not throw it returns the corrected key; it throws exactly for a non-empty hash without a square |
| Highlights.TransformLocatesSquare | src/render/highlights/render.ts:46-49 | a highlight is moved by whole squares, 0 to 700 percent each way, and its square can be read back from the transform |
| Highlights.HighlightOpacity | src/render/highlights/render.ts:36-37 | a translucent circle's highlight gets a quarter of the square opacity, any other circle's gets the full opacity |
| Highlights.HighlightOf | src/render/highlights/render.ts:9-14 | a circle yields a highlight exactly when it has a key, built on that key |
| Highlights.HighlightAt | src/render/highlights/render.ts:9-15 | the i-th highlight of a rebuild comes from the i-th circle |
| Highlights.HighlightsStop | src/render/highlights/render.ts:9-11 | a rebuild yields at most one highlight per circle and stops exactly at the first circle without a key |
| Highlights.HighlightsOnSquares | src/render/highlights/render.ts:9-15 | every highlight's key is a square and its transform positions it on that square |
| Highlights.HighlightStep | src/render/highlights/render.ts:9-15 | one pass of the loop ends the rebuild or appends the circle's highlight |
| Highlights.HighlightLayer.constructor | src/render/highlights/render.ts:18-23 | a new container is empty |
| Highlights.HighlightLayer.Fill | src/render/highlights/render.ts:9-15 | the loop over an emptied container leaves exactly the rebuild's highlights, and completes exactly when the circle where it stops does not make `getCircleKey` throw |
| Highlights.RebuildThrowsAt | src/render/highlights/render.ts:9-11 | a rebuild throws exactly when the circle where it stops exists and its hash makes `getCircleKey` as written throw |
| Highlights.CreateTransform | src/render/highlights/render.ts:46-49 | a highlight moves by whole squares, and for a square by 0 to 700 percent each way |
| Highlights.CreateHighlight | src/render/highlights/render.ts:33-44 | a highlight keeps the circle's key, has the square colour of the circle's stroke slot, has an opacity exactly when one is set, and lies on the board for a square |
| Highlights.UpdateHighlights | src/render/highlights/render.ts:4-16 | the existing container is reused, or a fresh one is made, and it ends holding exactly the rebuild's highlights for the current square palette and opacity; it completes exactly when `getCircleKey` as written does not throw at the circle where the rebuild stops |
| Highlights.RebuiltHighlightColours | src/render/highlights/render.ts:33-44 | each rebuilt highlight has the square colour of its circle's stroke slot, the translucency-adjusted opacity and the circle's key |
| Arrows.ArrowUciAsWritten | src/render/arrows/render.ts:72-78 | as written: no move without a hash; a hash holding no square throws; fewer than two squares gives none; otherwise the first two tokens |
| Arrows.ArrowUciAsWrittenThrows | src/render/arrows/render.ts:75-76 | the hash "x" makes `getArrowUci` throw |
| Arrows.ArrowUci | src/render/arrows/render.ts:72-78 | a move is four characters, two valid squares |
| Arrows.ArrowUciTokens | src/render/arrows/render.ts:72-78 | a line has a move exactly when its hash holds two square tokens, and the move is the first two; the code as written agrees wherever it does not throw |
| Arrows.ArrowWidth | src/render/arrows/render.ts:80-88 | no width for a missing, empty or non-numeric attribute; 0.1328125 becomes 0.15625; any other width is kept |
| Arrows.ArrowWidthIdempotent | src/render/arrows/render.ts:86 | reading back a normalised width leaves it unchanged |
| Arrows.UciToCoords | src/render/arrows/render.ts:129-133 | for a move of two squares, all four coordinates lie in 0..7 |
| Arrows.UciToCoordsOfMove | src/render/arrows/render.ts:129-133 | tail and tip are the positions of the origin and destination squares, on the board, and mirrored together when flipped |
| Arrows.CreateArrow | src/render/arrows/render.ts:99-120 | the line is tagged with its slot and stroked in that slot's arrow colour; it has a stroke width only when a non-zero width is given |
| Arrows.ArrowOf | src/render/arrows/render.ts:13-28 | a line yields an arrow exactly when it has a move; the stroke matches the tag; it brings only masks and filters to the front |
| Arrows.ArrowOfSpec | src/render/arrows/render.ts:13-28 | an arrow has its stroke slot's tag, colour and marker, the move's segment and the line's opacity; it is masked, by the origin square's mask, exactly when a piece image is there |
| Arrows.ArrowAt | src/render/arrows/render.ts:12-29 | the i-th arrow of a rebuild comes from the i-th line |
| Arrows.ArrowsStop | src/render/arrows/render.ts:12-16 | a rebuild draws at most one arrow per line and stops exactly at the first line without a move |
| Arrows.ArrowsForParts | src/render/arrows/render.ts:12-29 | every arrow of a rebuild brings only masks and filters to the front, and its line shows its tag's colour |
| Arrows.LayerParts | src/render/arrows/render.ts:6-30 | a layer made of such arrows is the masks and filters, then the defs, then one line per arrow in order |
| Arrows.LayerInSync | src/render/arrows/render.ts:6-30 | lines showing their tags' colours under defs in sync make a layer in sync |
| Arrows.ArrowLayerShape | src/render/arrows/render.ts:6-30 | the rebuilt layer is the masks and filters, then the defs, then one line per arrow in line order |
| Arrows.RebuiltLayerInSync | src/render/arrows/render.ts:6-30 | every line and marker of a rebuilt layer shows its tag's colour in the state it was built from |
| Arrows.RecolorMarkers | src/render/arrows/render.ts:42-47 | the markers of the slot take the new fill, every other marker is unchanged |
| Arrows.Recolored | src/render/arrows/render.ts:32-48 | the patch acts node by node |
| Arrows.RecolorFrame | src/render/arrows/render.ts:32-48 | a patch touches only elements tagged with its slot: a line changes only its stroke, a marker only its fill, masks and filters never |
| Arrows.RecolorIdempotent | src/render/arrows/render.ts:32-48 | patching the same colour twice is patching it once |
| Arrows.RecolorKeepsSync | src/render/arrows/render.ts:32-48 | a layer in sync with the palette stays in sync with the palette updated at that slot |
| Arrows.SyncMarkers | src/render/arrows/render.ts:58-63 | every marker takes its tag's colour |
| Arrows.Synced | src/render/arrows/render.ts:50-64 | the full resync acts node by node |
| Arrows.SyncedSpec | src/render/arrows/render.ts:50-64 | after a resync the layer is in sync; only strokes and fills change; a layer already in sync is unchanged |
| Arrows.RecolorIsResync | src/render/arrows/render.ts:32-64 | on an in-sync layer, a one-slot patch equals a full resync to the updated palette |
| Arrows.DrawArrow | src/render/arrows/render.ts:13-28 | one pass puts the arrow's masks at the front of the layer and its line at the back |
| Arrows.UpdateArrows | src/render/arrows/render.ts:6-30 | the existing layer is reused (keeping its opacity), or a fresh one is made at the arrow opacity; it ends holding exactly the rebuilt layer; it completes iff every line has a move |
| Arrows.UpdateArrowColor | src/render/arrows/render.ts:32-48 | the layer becomes the one-slot patch of its old children; without a layer nothing happens |
| Arrows.LineSynced | src/render/arrows/render.ts:51-56 | resyncing a node after the first loop gives what resyncing it before would |
| Arrows.SyncLines | src/render/arrows/render.ts:51-56 | the first loop gives every line its tag's arrow colour and leaves the other nodes and the opacity alone |
| Arrows.SyncMarkerPaths | src/render/arrows/render.ts:58-63 | the second loop gives every marker its tag's arrow colour and leaves every other node and the opacity alone |
| Arrows.UpdateArrowColorAll | src/render/arrows/render.ts:50-64 | the layer becomes the full resync of its old children to the state's arrow palette |
| Arrows.UpdateArrowOpacity | src/render/arrows/render.ts:66-70 | without a layer nothing happens; otherwise the layer takes the arrow opacity and keeps its children |
| ContentScript.LegacyLookup | src/index.ts:23-35 | a plain entry gives its colour at opacity 1, a split entry its colour and alpha; unlisted stroke colours read slot 1 |
| ContentScript.LegacyGetColor | src/index.ts:23-28 | an unlisted stroke colour reads the colour of slot 1's entry; a listed one reads the colour of the entry of the slot that lists it |
| ContentScript.LegacyGetOpacity | src/index.ts:30-35 | the opacity is 1, or the alpha that the stroke colour's slot entry pairs with its colour |
| ContentScript.DefaultFields | src/index.ts:4-6 | the initial table has every settings key, as plain entries of `defaults` |
| ContentScript.DefaultFieldsLookup | src/index.ts:4-6 | before settings load, every lookup gives a default colour at opacity 1 |
| ContentScript.LegacyCapId | src/index.ts:368-370 | the arrowhead id of a stroke colour is the id of its slot |
| ContentScript.LegacyGetCap | src/index.ts:372-374 | the cap of a stroke colour is the cap of its slot |
| ContentScript.LegacyCapShared | src/index.ts:368-374 | two stroke colours share an arrowhead exactly when they share a slot; unknown colours share slot 1's |
| ContentScript.Prefix | src/index.ts:137 | the prefix `board${n}_` is the number's text plus six characters |
| ContentScript.PrefixInjective | src/index.ts:137-138 | distinct counters give distinct prefixes |
| ContentScript.CapIdsAcrossBoards | src/index.ts:137-138 | arrowhead ids of two boards never collide |
| ContentScript.CgContainer.constructor | src/index.ts:140-142 | a container records whether it has a shapes layer and a board |
| ContentScript.ShapeObserver.constructor | src/index.ts:143-149 | a new observer is connected to its container under its prefix |
| ContentScript.NewContainersOnce | src/index.ts:75-83 | each container not seen before is watched, once; no container seen before is watched |
| ContentScript.Watcher.constructor | src/index.ts:70 | nothing seen, counter 0, no observers |
| ContentScript.Watcher.WatchChessground | src/index.ts:135-150 | always issues `board${counter}_` and increments the counter; only a container with shapes and a board gets a connected observer |
| ContentScript.ObservedFrom | src/index.ts:135-150 | watching a run of containers observes at most one board per container |
| ContentScript.ObservedFromIndex | src/index.ts:135-150 | every observed board is one of the watched containers, with shapes and a board, under the prefix its own call issued |
| ContentScript.ObservedFromAt | src/index.ts:135-150 | every watched container with shapes and a board is observed, under the prefix its own call issued |
| ContentScript.Watcher.FindOne | src/index.ts:77-81 | a container seen before changes nothing but is kept seen; a new one is marked seen, watched and numbered, and gets a fresh connected observer exactly when it has shapes and a board |
| ContentScript.Watcher.FindAt | src/index.ts:75-83 | one pass of the loop on the i-th container keeps the loop's progress: the containers met so far are seen, and the rest of the list completes the call's watched list and observers |
| ContentScript.Watcher.FindNewChessgrounds | src/index.ts:75-83 | every listed container ends in the seen set; exactly the new ones are watched, in list order; earlier observers are kept, and one fresh connected observer is added per new container with shapes and a board, in list order, the k-th new container under prefix `board${counter + k}_` |
| ContentScript.IssuedDistinct | src/index.ts:136-138 | all prefixes issued by one content script are distinct |
| ContentScript.ShapeCallback | src/index.ts:92-99 | when detached it disconnects and renders nothing; otherwise the highlights are rebuilt in the existing container, if any; when the highlight rebuild throws in `getCircleKey`, the arrow layer is left untouched; otherwise the arrows are rebuilt under the board's prefix, in the existing layer with its opacity, if any |
| Swatches.FirstActive | src/options/swatches.ts:35 | the first active swatch, or the end of the row when none is active |
| Swatches.Switched | src/options/swatches.ts:44-52 | after a switch, exactly the swatches with the name are active |
| Swatches.Painted | src/options/swatches.ts:24-29 | each swatch is painted from the table by its name |
| Swatches.LastMatchSpec | src/options/swatches.ts:44-52 | a colour is found exactly when a swatch has the name, and it is the computed colour of the last such swatch |
| Swatches.SwitchedIdempotent | src/options/swatches.ts:41-56 | switching twice is switching once, and names and backgrounds are kept |
| Swatches.PaintedIdempotent | src/options/swatches.ts:24-29 | painting twice with one table is painting once |
| Swatches.SwitchedActiveCount | src/options/swatches.ts:44-52 | after a switch, the number of active swatches is the number of swatches with the name |
| Swatches.SwitchedThenOneActive | src/options/swatches.ts:33-37 | with one swatch per name, switching to a listed name leaves exactly that swatch active, so `setColor` acts on it |
| Swatches.Swatches.constructor | src/options/swatches.ts:5 | the active colour name starts as `arrow_color_1` |
| Swatches.Swatches.SetHandler | src/options/swatches.ts:7 | assigning `onSwitchActiveColor` sets a handler and leaves the swatches and the active name as they were |
| Swatches.Swatches.SetColors | src/options/swatches.ts:24-29 | each swatch takes the table's colour for its name; a name missing from the table leaves the swatch as it was |
| Swatches.Swatches.SetColor | src/options/swatches.ts:32-38 | unless exactly one swatch is active, nothing changes and no name is returned; otherwise only that swatch's background changes and its name is returned |
| Swatches.Swatches.SwitchActiveColor | src/options/swatches.ts:41-56 | records the name; activates exactly the named swatches; fires with the last match's colour iff a handler is set, propagation is on and that colour is non-empty |
| Swatches.Swatches.Click | src/options/swatches.ts:14-16 | a click switches, propagating, to the clicked swatch's name; that swatch becomes active; when no later swatch shares its name, the handler, if set, gets its computed colour unless that colour is empty |

## Left out

- `shortenTip` (`src/render/arrows/render.ts:142-154`) needs a square root and a real division by the length. An arrow line keeps the unshortened segment from `uciToCoords`.
- `splitAlpha` and the settings read at start-up (`src/index.ts:9-14`, `45-66`) depend on the browser's colour normalisation and on storage I/O. The legacy table is taken as given, with each entry plain or split.
- ContentScript.Watcher.WatchChessground: the first render, `callback([], observer)` at `src/index.ts:149`, is not performed here. A new board is drawn by a caller running `ShapeCallback` for the new observer, whose contract states that render.
- ContentScript.ShapeCallback: it calls the modular renderers. The renderers that `src/index.ts` defines and calls itself differ from them, and those differences are not modelled. Their use of the legacy table is covered by `LegacyLookup`, `LegacyGetColor`, `LegacyGetOpacity`, `LegacyCapId` and `LegacyGetCap`. The differences:
  - `createArrow` (`src/index.ts:255-268`) sets no `data-color-num` tag and no `stroke-width`.
  - That `createArrow` takes its opacity from the legacy alpha `getOpacity('arrow', lichessColor)`. It ignores the line's `opacity` attribute.
  - `createNewSvg` (`src/index.ts:247-253`) sets no layer opacity.
  - `createHighlight` (`src/index.ts:227-238`) uses the legacy colour and alpha of the circle's stroke colour. It does not use the square opacity.
  - `createMarker` (`src/index.ts:342-357`) puts no slot tag on the marker's path.
- Some DOM access is taken as inputs rather than modelled:
  - mutation observers and queries
  - `closest('.orientation-black')`, which becomes the flip flag
  - `getBoundingClientRect`, which becomes the board width
  - the piece query with `getComputedStyle`, which becomes the map from pixel transform to background image
  - whether the board is attached
  - the computed colour of a swatch
- A `WeakSet` is modelled as a set. Garbage collection is not modelled.
- Numbers are formatted into attribute and transform strings by JavaScript's float printing. Those strings are kept as numbers, and `getOpacity`'s string is kept as an optional real. `None` stands for the `undefined` opacity before any settings load. `Number()` parsing of `stroke-width` is abstracted into missing, empty, not-a-number or a value.
- Some element attributes are constant whatever the input, and are not represented:
  - the mask's white backdrop
  - the marker's orientation, size and reference point, and its path data
  - the filter's colour matrix
  - the layer's `viewBox` and class
- Arrows.UpdateArrows: the exception thrown at a line without a move ends the call with `completed` false. Its propagation out of the observer callback is not modelled, and `ShapeCallback` does not report it.
- Highlights.UpdateHighlights: the exception `getCircleKey` throws ends the call with `completed` false. `ShapeCallback` then skips the arrows and returns, and does not report the exception.
- Swatches.Swatches.SetColors: assigning an invalid CSS colour is ignored by the browser. The model treats only a missing table entry that way.
- Swatches.Swatches.SetColor: the count of active swatches is taken over the swatch row. The source's class query also reaches deeper descendants, and the row has none.
- `src/options/color-picker.ts` is floating-point colour maths and canvas UI. `src/options.ts` is storage and form wiring. `src/message.ts` has no behaviour. `rollup.config.js` is build configuration. None of these is part of this model.

## Findings

| source | as written | input that shows it | evidently intended | confidence | as-written member | corrected member |
|---|---|---|---|---|---|---|
| src/render/highlights/render.ts:28-29 | `hash.match(keyRegex)` with a global pattern returns `null` when nothing matches, and `key.length` then throws | a circle whose `cgHash` is "x" | a hash with no square yields no key, as the following `length === 0` test intends | high, not executed | Highlights.CircleKeyAsWrittenThrows | Highlights.CircleKeyAgrees |
| src/render/arrows/render.ts:75-76 | `keys.length` is read on the `null` that `match` returns for a hash with no square, and throws | a line whose `cgHash` is "x" | a hash with fewer than two squares yields no move | high, not executed | Arrows.ArrowUciAsWrittenThrows | Arrows.ArrowUciTokens |

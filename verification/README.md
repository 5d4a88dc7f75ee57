# A model of the asterisms constellation editor

The asterisms star map lets a visitor draw their own constellations. In
**create** mode a click on a star adds it to the shape being drawn, or
removes it if it is already there. The shape is a polyline through the
selected stars in click order, with one marker per star, in one randomly
chosen colour. Once the shape has at least two stars and a name, it can be
saved. Saved constellations are kept in browser storage.

In **explore** mode a saved constellation is chosen from a list and
replayed: its markers appear, and a glowing band sweeps along its path and
fades out. The editor's logic lives in `main/stars_func.js`. This project
models that logic as pure Dafny functions over an immutable state:

| file | module | what it models |
|---|---|---|
| `common.dfy` | `Common` | `Option`, `Result`, `Min`, `Max`, `NoDup` |
| `text.dfy` | `Text` | `String.prototype.trim` and the lower-casing used for the case-insensitive name check |
| `colors.dfy` | `Colors` | 24-bit colours, how they are persisted as `#rrggbb` and how they are parsed back |
| `selection.dfy` | `Selection` | the shape being drawn: `toggleStarSelection`, `resetCurrentDrawing`, `updatePolyline`, `updateSaveButtonState` |
| `store.dfy` | `Store` | the saved constellations: the validation and append of `saveCurrentConstellation`, the filter of `deleteConstellation` |
| `glow.dfy` | `Glow` | the real arithmetic of one frame of `animateGlowingLine`, and `calculatePolylineLength` |
| `hittest.dfy` | `HitTest` | the click handler's nearest-star scan and its hit radius |
| `editor.dfy` | `Editor` | the page state, with one transition per handler: `switchMode`, `displayConstellation`, a replay frame, the click, contextmenu and keydown handlers, the buttons and the name field |

## How the replay is modelled

The replay is split into two parts:

- `pending` is the frame callback queued with `requestAnimationFrame`. It
  closes over the segment lengths and the colour.
- `frameId` is the variable `animationFrameId`. `isAnimationInProgress`
  tests only this variable.

`Frame(e, time, handle)` is one run of the queued callback. Time and the
handle that `requestAnimationFrame` returns are parameters. So are the
random colour, the new constellation's id, and the answers to the
`confirm` dialogs.

The code's behaviour is kept as written. When a replay reaches its end
(`main/stars_func.js:423-433`), it queues no further frame. But it never
sets `animationFrameId` back to `null`, so `isAnimationInProgress` stays
true and the click handler ignores every click on the sky.

- `Editor.FinishedReplayBlocksClicks` proves this.
- `Editor.StuckPersists` lists everything that keeps the page in this
  state: clicks, keys, typing, clear-all, re-selecting the current mode,
  a right-click in create mode, and deleting any constellation.
  Deleting does not help, because the animating id was already cleared at
  the end of the replay.
- `Editor.StuckReleased` lists what ends it: switching to the other mode,
  a right-click in explore mode, and displaying a constellation.

Other details of the code that are easy to miss, kept as written:

- In explore mode, every click on the sky clears the drawing, a click on
  a star included (`main/stars_func.js:580-586`).
- A right-click in create mode clears the drawing but leaves the replay
  handles as they are (`main/stars_func.js:591-592`).
- If the replay's start time is `0`, the first frame restarts the clock,
  because the code tests `!animationStartTime` (`main/stars_func.js:373`).
- Markers belong to whoever drew them. If the user switches to create
  mode during a replay, the replayed markers stay while the selection is
  empty (`Editor.DisplayedMarkersOutliveSwitch`). So "one marker per
  selected star" (`Selection.Mirrored`) holds for the create-mode toggle
  but is not an invariant of the page.
- Unselecting a star removes the first marker on that star, whoever drew
  it. So a marker left over from a replay can be removed in place of the
  one the toggle added (`Selection.ToggleTwiceDropsForeignMarker`). The
  selection itself is always restored
  (`Selection.ToggleTwiceRestoresSelection`).
- A key typed into the name field also reaches the window's `keydown`
  listener. That listener runs before the field's `input` listener. So in
  create mode, typing an `r` into the name clears the shape being drawn
  (see Findings).

Every event keeps the state invariant `Editor.Valid`:

- the drawing's bookkeeping is consistent;
- the store is well formed;
- nothing is selected in explore mode;
- the replay handles agree with each other and with the store.

## Model

| member | source | states |
|---|---|---|
| Text.Trim | main/stars_func.js:241 | a name is blank after trimming exactly when every character is whitespace; a non-blank result starts and ends with a non-whitespace character |
| Text.TrimIsSlice | main/stars_func.js:241 | the trimmed name is a contiguous slice of the typed one, and only whitespace lies before and after it |
| Text.TrimIdempotent | main/stars_func.js:241 | trimming the trimmed name changes nothing |
| Text.TrimmedIsFixed | main/stars_func.js:241-255 | the names a save can store (non-blank, no surrounding whitespace) are exactly the non-blank names trimming leaves unchanged |
| Colors.ToHex | main/stars_func.js:257 | a persisted colour is `#` followed by six lower-case hexadecimal digits |
| Colors.DigitsRoundTrip | main/stars_func.js:257 | reading back the written hexadecimal digits of a number gives the number |
| Colors.ParseToHex | main/stars_func.js:326 | parsing the saved colour string gives back the exact colour the shape was drawn in |
| Selection.Reset | main/stars_func.js:92-101 | markers, selection, polyline and colour are all empty, the name stays, the save button is disabled, and the result is consistent |
| Selection.ResetIdempotent | main/stars_func.js:92-101 | resetting twice is resetting once |
| Selection.TypeName | main/stars_func.js:183-185 | after typing, the save button is enabled exactly when two or more stars are selected and the text is not all whitespace; consistency is kept |
| Selection.IndexOf | main/stars_func.js:105 | `findIndex`: -1 exactly when the star is absent; otherwise the first position holding it |
| Selection.DropMarker | main/stars_func.js:149-154 | with no marker on the star the markers stay; otherwise exactly the first marker on that star is spliced out |
| Selection.Toggle | main/stars_func.js:104-163 | an absent star is appended with a marker in the shape colour; a present star's entry is spliced out, the others keep their order, and the first marker on that star is removed; the colour is set exactly while stars are selected, taken from the random pick only when there was none; the polyline exists exactly for two or more stars and runs through them; the save button follows length and trimmed name |
| Selection.FlipMembership | main/stars_func.js:104-159 | a toggle keeps the selection duplicate-free, contains the star exactly when it was absent before, and changes no other star's membership |
| Selection.ToggleKeepsConsistent | main/stars_func.js:104-175 | toggling preserves: no duplicates, colour present iff selection non-empty, polyline iff two or more stars, save button iff savable |
| Selection.ToggleTwiceRestores | main/stars_func.js:104-159 | with one marker per selected star, adding a fresh star and toggling it again restores the drawing exactly, markers and colour included |
| Selection.ToggleTwiceRestoresSelection | main/stars_func.js:104-163 | for every consistent drawing, adding a fresh star and toggling it again restores the selection, colour, polyline, name and save button |
| Selection.ToggleTwiceDropsForeignMarker | main/stars_func.js:104-159 | a marker on a star that is not selected does not survive adding that star and toggling it again: the older marker is the one removed |
| Selection.ToggleKeepsMirrored | main/stars_func.js:115-152 | with one marker per selected star in the shape colour before a toggle, the same holds after it |
| Selection.LineThrough | main/stars_func.js:166-175 | a polyline exists exactly for two or more selected stars, and then it runs through them in click order |
| Selection.CanSave | main/stars_func.js:183-185 | the save button is enabled exactly for two or more stars and a name that is not all whitespace |
| Store.Find | main/stars_func.js:297 | there is no entry exactly when no entry has the id; otherwise it is an entry of the store with that id, and no earlier entry has the id |
| Store.Save | main/stars_func.js:240-260 | refused as invalid input exactly for fewer than two stars or a blank name, as a duplicate exactly when the trimmed name matches a saved one ignoring case; otherwise one entry is appended with the id, the trimmed name, the stars in click order and a colour that parses back to the shape's, and earlier entries are untouched |
| Store.SaveKeepsStoreOk | main/stars_func.js:240-260 | a successful save keeps every entry well formed and all names distinct ignoring case |
| Store.SameNameRefused | main/stars_func.js:248-251 | once a name is saved, a save under the same name in another letter case is refused as a duplicate |
| Store.OrionThenLowerCaseOrion | main/stars_func.js:241-251 | saving "Orion" succeeds and then saving "orion" is refused as a duplicate |
| Store.Delete | main/stars_func.js:275 | no survivor has the deleted id, and nothing is added |
| Store.DeleteIsFilter | main/stars_func.js:275 | an entry survives exactly when it was in the store with another id |
| Store.DeleteAppend | main/stars_func.js:275 | deleting works entry by entry, so survivors keep their relative order |
| Store.DeleteAbsent | main/stars_func.js:275 | deleting an id no entry has leaves the store unchanged |
| Store.DeleteIdempotent | main/stars_func.js:275 | deleting twice is deleting once |
| Store.DeleteUndoesSave | main/stars_func.js:253-259 | deleting a constellation just saved under a fresh id restores the earlier store |
| Store.DeleteKeepsStoreOk | main/stars_func.js:274-276 | deletion keeps every entry well formed and all names distinct |
| Glow.Progress | main/stars_func.js:374-375 | progress never exceeds 1, is at least 0 once time has started, and is 1 exactly from the duration on |
| Glow.Opacity | main/stars_func.js:414 | opacity is never negative and lies in [0.2, 1] for every progress in [0, 1] |
| Glow.BandMonotone | main/stars_func.js:372-380 | later frames never move the band's head or tail backwards or brighten the line, and the band always has length 0.2 |
| Glow.SumFrom | main/stars_func.js:438-444 | the path length accumulated from a segment on is never below that segment's length |
| Glow.RatiosSumToOne | main/stars_func.js:386-405 | the segments' shares of the path add up to exactly 1 |
| Glow.PiecesFrom | main/stars_func.js:384-406 | every emitted piece lies in its segment with `0 <= start < end <= 1`, and pieces come in segment order |
| Glow.PiecesAreOverlaps | main/stars_func.js:384-406 | what a frame draws of each segment is exactly its overlap with the band [tail, head], mapped to the segment's own parameter |
| Glow.GlowPieces | main/stars_func.js:384-406 | every piece a frame draws lies in a segment with `0 <= start < end <= 1`, at most one piece per segment, in segment order |
| Glow.GlowVisible | main/stars_func.js:372-420 | for any positive segment lengths, something is drawn exactly when progress lies strictly between 0 and 0.8, so nothing is drawn at progress 0 or 1 |
| Glow.ThreeStarExample | main/stars_func.js:372-420 | for segment lengths 1 and 3, the first and the last frame draw nothing |
| HitTest.NearestFrom | main/stars_func.js:550-578 | the scan finds a star exactly when there is one, and it is nearest, strictly nearer than every star before it |
| HitTest.FirstNearestUnique | main/stars_func.js:568 | the strict comparison makes the first nearest star unique |
| HitTest.RadiusBySquares | main/stars_func.js:580 | comparing the squared distance with 144 decides the same as comparing the distance with 12 |
| HitTest.PickAmong | main/stars_func.js:550-580 | a target exists exactly when some star lies within the hit radius, and then it is the first nearest star |
| HitTest.FlattenHolds | main/stars_func.js:552-578 | a star is scanned exactly when it is in one of the rendered point layers |
| HitTest.Pick | main/stars_func.js:550-580 | over all rendered layers, a target exists exactly when some star is within the hit radius, and a target is a star within the radius |
| HitTest.TwoStarExample | main/stars_func.js:550-580 | a click 8 px from one of two stars hits it; a click equally far from both and beyond the radius hits nothing |
| Editor.Initial | main/stars_func.js:639-641 | the page starts in explore mode with the loaded store, nothing drawn and nothing animating; a well-formed store gives a valid state |
| Editor.IsAnimationInProgress | main/stars_func.js:446-448 | a replay is believed in progress exactly while the frame handle is set, whether or not a frame is queued |
| Editor.Cancel | main/stars_func.js:521-525 | nothing is in progress, queued, animating or shown; mode, drawing and store stay |
| Editor.SwitchMode | main/stars_func.js:506-537 | the same mode changes nothing; the other mode stops every replay; entering explore resets the drawing and entering create keeps it |
| Editor.Resolve | main/stars_func.js:308-317 | every resolved index has a catalog record, and no more indices come out than went in; `Editor.ResolveAppend` adds that the survivors keep their click order |
| Editor.ResolveIsFilter | main/stars_func.js:308-317 | resolving keeps exactly the indices that have a catalog record and creates no duplicates |
| Editor.ResolveAllKnown | main/stars_func.js:308-317 | indices that all have records resolve to themselves |
| Editor.ResolveAppend | main/stars_func.js:308-317 | resolving distributes over concatenation, so the indices with a record come out in the order they were clicked |
| Editor.Lengths | main/stars_func.js:367-370 | one segment length per pair of consecutive stars; for distinct stars that all have catalog records, every length is positive |
| Editor.MarkersFor | main/stars_func.js:325-344 | one marker per star, in order, all in the saved colour, so the displayed markers mirror the constellation's stars with its polyline |
| Editor.Display | main/stars_func.js:289-360 | mode, store and name stay; the selection stays, or is emptied in explore mode; handles that agree still agree |
| Editor.DisplayOutcome | main/stars_func.js:289-349 | an unknown id changes nothing except cancelling a running replay; a known id with fewer than two stars on record leaves no replay running and, in explore mode, a cleared drawing, otherwise the drawing untouched; a replay is queued exactly for a known id with at least two stars on record, and then it carries the saved colour, the segment lengths, the start time and the new handle, with markers added after the drawing that explore mode clears first |
| Editor.StartReplay | main/stars_func.js:323-349 | only the markers, the replay handles and the queued session change; the earlier markers stay and the added ones mark the resolved stars in the saved colour; a replay is in progress for this constellation from `now`; started from a valid idle state for a stored constellation with two stars on record, the state stays valid |
| Editor.Frame | main/stars_func.js:371-435 | with nothing queued nothing happens; a frame that queues the next one gets the new handle and keeps the drawing; a frame that queues nothing keeps the old handle and clears the animating id and the glow line |
| Editor.FrameOutcome | main/stars_func.js:372-433 | before the duration the next frame is queued and the glow line shows exactly the band's pieces at this progress's opacity; from the duration on the replay ends, keeping the old frame handle and clearing the drawing in explore mode |
| Editor.FinishedReplayBlocksClicks | main/stars_func.js:423-433 | a replay that runs to its end leaves the page believing an animation is in progress, and every following click on the sky is ignored |
| Editor.StuckPersists | main/stars_func.js:546 | once stuck, clicks, keys, typing, clear-all, re-selecting the current mode, a create-mode right-click and any deletion leave the page stuck |
| Editor.StuckReleased | main/stars_func.js:506-606 | switching to the other mode, an explore-mode right-click, or displaying a constellation ends the stuck state |
| Editor.ClickOn | main/stars_func.js:540-587 | clicks are ignored while an animation is believed in progress; in create mode a hit toggles the star and a miss does nothing; in explore mode every click clears the drawing; replay handles are never touched |
| Editor.Click | main/stars_func.js:540-587 | ignored while an animation is believed in progress; in create mode the first nearest star over all layers is toggled when it is within the hit radius, and with no star within the radius nothing changes; in explore mode the drawing is cleared |
| Editor.SmallHandlersKeepValid | main/stars_func.js:589-623 | a right-click, a key, clear-all and typing a name each keep the state valid |
| Editor.ClickKeepsValid | main/stars_func.js:540-587 | a click keeps the state valid |
| Editor.ContextMenu | main/stars_func.js:589-606 | a right-click clears the drawing; in explore mode it also stops every replay, in create mode it leaves the handles alone |
| Editor.KeyDown | main/stars_func.js:608-612 | only the drawing can change; `r` or `R` in create mode empties the selection, markers and colour and keeps the typed name; every other key, and every key in explore mode, changes nothing |
| Editor.ClearAll | main/stars_func.js:618-622 | only the drawing can change; a confirmed clear empties the selection, markers and colour and keeps the typed name; a declined one changes nothing |
| Editor.NameInput | main/stars_func.js:623 | the field's `input` listener: the name becomes the text, the save button is enabled exactly for two or more stars and a non-blank text, and nothing else changes |
| Editor.NameKey | main/stars_func.js:608-623 | a key typed into the name field: `r` or `R` in create mode empties the selection, markers and colour and leaves the save button disabled; any other key only updates the name as typing does |
| Editor.NameKeyIntended | main/stars_func.js:623 | a key typed into the name field only edits the name: selection, markers and colour stay, and the save button follows the selection and the text |
| Editor.NameKeyAgreesOutsideReset | main/stars_func.js:608-623 | the handling as written and as intended agree except for `r` or `R` in create mode, where they differ whenever stars are selected |
| Editor.TypingOrionWipesShape | main/stars_func.js:608-623 | typing "Or" into the name field with a savable shape leaves the shape empty and the save button disabled |
| Editor.TypingOrionKeepsShapeIntended | main/stars_func.js:623 | handled as intended, typing "Or" keeps the shape and enables the save button |
| Editor.DeleteCurrent | main/stars_func.js:274-286 | the id leaves the store; when it is the animating id the replay stops and the drawing is cleared, otherwise nothing else changes |
| Editor.DeleteKeepsOtherIds | main/stars_func.js:275 | every other id survives a deletion |
| Editor.DeleteCurrentIdempotent | main/stars_func.js:274-286 | deleting twice is deleting once, replay handling included |
| Editor.SaveCurrent | main/stars_func.js:240-271 | a save either changes nothing or ends in explore mode with an empty selection and name field |
| Editor.SaveCurrentOutcome | main/stars_func.js:240-271 | a refused save changes nothing; a successful one holds the appended store, explore mode, an empty selection and name, and a disabled save button |
| Editor.DisabledSaveChangesNothing | main/stars_func.js:183-185 | whenever the save button is disabled, pressing save would change nothing anyway |
| Editor.SaveThenReplays | main/stars_func.js:240-271 | saving a shape under a fresh id ends in explore mode replaying it, with exactly its markers in the colour it was drawn in and its first frame queued |
| Editor.FindAppended | main/stars_func.js:253-259 | the entry appended under a fresh id is the one found by that id |
| Editor.DisplayedMarkersOutliveSwitch | main/stars_func.js:506-537 | switching to create mode during a replay keeps the replayed markers with an empty selection |
| Editor.SwitchModeKeepsValid | main/stars_func.js:506-537 | switching modes keeps the state valid |
| Editor.DisplayKeepsValid | main/stars_func.js:289-360 | displaying keeps the state valid |
| Editor.FrameKeepsValid | main/stars_func.js:371-435 | a frame keeps the state valid |
| Editor.DeleteKeepsValid | main/stars_func.js:274-286 | deleting keeps the state valid |
| Editor.SaveKeepsValid | main/stars_func.js:240-271 | saving keeps the state valid |
| Editor.StepKeepsValid | main/stars_func.js:540-623 | every event keeps the state valid |
| Editor.Step | main/stars_func.js:540-623 | a disabled save, a declined deletion, a frame with nothing queued and a click during an animation change nothing; only the mode buttons and save change the mode; only save and delete change the store |
| Editor.Run | main/stars_func.js:540-623 | every session of events from a valid state ends in a valid state |

## Findings

| source | as written | input that shows it | evidently intended | confidence | as-written member | corrected member |
|---|---|---|---|---|---|---|
| main/stars_func.js:608-612 | the window's `keydown` listener resets the drawing for `r` or `R` in create mode, including keys typed into the name field | in create mode with two stars selected, type "Orion" into the name field: the `r` clears the shape, and the save button stays disabled | keys typed into the name field only edit the name | not executed | Editor.TypingOrionWipesShape | Editor.NameKeyIntended |

`Editor.NameKey` models the keystroke as written. `Editor.NameKeyIntended` is the corrected handling, and `Editor.NameKeyAgreesOutsideReset` shows where the two differ. The event model `Editor.Step` keeps the behaviour as written (`NameKeyTyped`), so its invariants cover the page as it is.

## Left out

- Three.js objects are not modelled: sprites, textures, materials, geometry, `clearThreeObject` and `scene.add`. A marker is the star it marks and its colour. The polyline and the glow line are the data they are drawn from.
- The conversion from right ascension and declination to positions, `v.project(camera)` and `pixelToWorldScale` are floating-point numerics over camera state. The hit test takes stars already projected to pixels. Segment lengths come from a given separation function on catalog indices (`Editor.Sky`), not from `sqrt`.
- Randomness, clocks and scheduling are parameters:
  - `Math.random` for the colour and the id, and `Date.now`;
  - `performance.now` and the frame time;
  - the handle that `requestAnimationFrame` returns.
  A frame is an explicit `AnimationFrame` event. `cancelAnimationFrame` is the clearing of the queued callback.
- The TWEEN pop-in effect on a new marker and `updateMarkerScales` only change how sprites look.
- `localStorage` and JSON are not modelled. The store is the list itself, because every change writes the whole list back. `JSON.parse` on corrupt stored data throws; that is not modelled.
- The DOM is not modelled: list rendering and highlighting, panel visibility, `updateStarCountDisplay`, `showTemporaryMessage`, `alert` and `console` output. The answers to `confirm` are boolean parameters. Clicks on UI panels never reach the canvas handler, so the model starts after that filter.
- Text.ToLower: lower-cases ASCII letters only. JavaScript's `toLowerCase` also lower-cases other scripts.
- Colors.ParseStyle: understands only the `#rrggbb` form that the editor itself writes. Any other string leaves the colour white. three.js also accepts other CSS forms.
- Editor.Frame: requires every queued segment to have positive length. The model does not cover zero-length segments. In the code, a zero-length segment gets the ratio 0, and the divisions at `main/stars_func.js:397-398` give an infinity or NaN. The `start < end` test at line 400 rejects most of these cases. The one exception is when the band's tail lies before the segment's position on the path and its head lies after it: then a piece from 0 to 1 of zero length is drawn. A path of total length 0 makes every ratio NaN, and nothing is drawn.
- `Editor.SkyValid` is an assumption about the catalog: distinct catalog stars are never at the same position. The code does not check this. `Number(starObj.ra) || 0` at `main/stars_func.js:311-312` turns a missing or malformed coordinate into 0, so two bad records can share a position.
- Numbers are exact reals, not IEEE doubles. For example, `Math.sqrt(d2) <= 12` at `main/stars_func.js:580` can accept a squared distance slightly above 144 after rounding, and the shares accumulated at line 405 need not add up to exactly 1. `HitTest.RadiusBySquares` and `Glow.RatiosSumToOne` hold for the exact values.
- A rendered point without a catalog record makes the click handler throw; this is not modelled.
- `main/bgm.js` (background music), `home/sound.js` (particle sound effects) and `main/create_stars.py` (catalog download) are not part of this model.

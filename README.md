# luma-edit core, modelled in Dafny

luma-edit is a single-page photo editor whose logic lives in one file,
`script.js`. Each global edit and each mask runs through a per-pixel
compositor. A tone-curve widget turns its control points into a 256-entry
lookup table. Radial masks get their coverage from an ellipse fall-off. A
box blur feeds the clarity term. Every committed edit is pushed onto an
undo/redo history of snapshots. The crop tool resizes a box by its handles.

This project models that core and proves properties of it:

- `bytes.dfy` (`Bytes`): the byte type. It also holds the store rule of a
  `Uint8ClampedArray`: clamp to [0, 255], then round half to even.
- `params.dfy` (`EditParams`): the fifteen numeric edit parameters. It also
  holds the slider read-back that `pushHistory` performs.
- `tone_curve.dfy` (`ToneCurves`): the `ToneCurve` class, with its points as
  heap objects held by a `PointList` object. The JavaScript array is shared
  by reference and sorted in place, and the point being dragged is an object
  identity.
  - Stable sorting by x, the bracket scan, the interpolation and the table
    are specification functions.
  - The methods (`SetPoints`, `GenerateLUT`, the mouse handlers) are proved
    against them.
- `masks.dfy` (`Masks`): masks and `generateMaskPixelData`. The radial
  coverage is a nested fill loop, proved against the raster it should
  produce.
- `blur.dfy` (`Blur`): `applyBoxBlur` as the nested loops of the source,
  proved against a window-mean specification.
- `compositor.dfy` (`Compositor`): the pixel loop of `applyEditsToData`, and
  the pass order of `render`. The linear colour steps are modelled over
  reals: luminance, the tonal-zone blend, temperature, saturation, and the
  coverage blend and clamp. The transcendental steps are kept abstract.
- `crop.dfy` (`Crop`): `getCropHandleAt`, `getCursorForCropHandle` and
  `updateCropBox`.
- `history.dfy` (`History`):
  - The history stack and index as a value (`Timeline`), with `Pushed`,
    `Loaded`, `Undone` and `Redone`.
  - The page state as the `Editor` class, whose methods are the source's
    handlers.
  - The mask-list operations, which change the current entry in place before
    pushing.
  - The tone curve's `onChange`, and the canvas tool handlers.

The source's promises appear in three ways:

- What the source computes is stated in `ensures` clauses.
- What it keeps true is stated as invariants (`Valid`, `Bounded`).
- What holds across several operations is stated as lemmas:
  - undo and redo are inverses;
  - a push leaves nothing to redo;
  - after a mask is deleted, undo does not bring it back;
  - curve-widget events never change the history;
  - the sort by x is stable;
  - the default curve gives the identity table;
  - a blurred channel lies between the window's minimum and maximum;
  - a pass with zero coverage leaves the pixel alone.

Behaviours of the code that the model reproduces rather than corrects:

- **Entries are changed in place.**
  - `deleteActiveMask`, mask commits and the tone curve's `onChange` first
    change the current history entry, then push a copy of it. The entry that
    undo returns to therefore already carries the change.
  - Selecting a mask in the list (line 311) also changes the current entry
    in place. It then reloads that entry and pushes nothing.
- **Curve edits never reach the history.**
  - `pushHistory` stores the widget's live point list, not a copy (line 205).
    Every entry therefore holds that one list.
  - Every push renders (line 209). Every render with an image builds a
    temporary `ToneCurve` on the widget's container (line 269), and its
    `init` empties the container (line 76). So the first push, in
    `commitTransform`, takes the live widget out of the page for good
    (`curveMounted` in `Editor`).
  - While the live widget is still in the page there is no image, so its
    `onChange` returns at once (line 158). Drags made then change the live
    list, and the first push records them.
  - Afterwards no event reaches the live widget. The curve handlers leave the
    history unchanged, so the sharing cannot be seen through the page.
- **A new mask takes the panel's values.** The push that follows adding a
  mask reads the mask panel's sliders into the new, now active mask. Those
  sliders still show the previously selected mask's values.

Behaviours of the code that a reader might not expect:

- The default curve is (0,255)-(255,0) (line 66). Because the table inverts
  y (lines 97-106), it gives the identity table: entry i is i.
- Every compositor call with a non-zero clarity blurs the whole buffer anew
  (line 273); no blurred copy is kept between calls.
- `texture` is destructured from the edits (line 270), but no step of the
  pixel loop (lines 279-297) reads it.
- Each mask pass runs the full pixel loop with the mask's own edits
  (lines 255-258), so a mask's clarity uses the blur as well.
- Clicking a mask in the list sets the active id and reloads the current
  entry (line 311); it pushes no history entry.

Inputs from the browser are parameters of the methods:

- slider values, as a map from parameter to value per panel;
- mouse coordinates;
- the crop handle size in canvas units;
- the clock reading used in mask ids;
- the segmentation result;
- the canvas size and the base image bytes;
- `Math.sqrt`, given as a function that satisfies the properties the proofs
  need.

## Model

| member | source | states |
|---|---|---|
| Bytes.ToClamped | script.js:104 | storing a value in a clamped byte array gives 0 at or below 0 and 255 at or above 255, and otherwise lies within half a unit of the value |
| Bytes.ToClampedOfByte | script.js:280 | storing a value that is already a byte keeps it |
| Bytes.ToClampedBetween | script.js:300 | a stored value stays between any two bytes that bound the value |
| Bytes.ToClampedMonotone | script.js:300 | storing preserves order |
| EditParams.OverlayGet | script.js:199-204 | after reading back a panel, each parameter that has a slider holds that slider's value and every other parameter keeps its value |
| EditParams.OverlayNothing | script.js:199-204 | reading back a panel with no sliders changes nothing |
| EditParams.OverlayIdempotent | script.js:199-204 | reading back the same slider values twice is the same as reading them once |
| ToneCurves.InsertPt | script.js:83 | one insertion step of the stable sort by x is one longer and adds exactly the inserted point to the multiset |
| ToneCurves.InsertPtSorted | script.js:83 | inserting into a list sorted by x keeps it sorted |
| ToneCurves.SortPts | script.js:83 | sorting by x keeps the number of points |
| ToneCurves.SortPtsSorted | script.js:83 | the sort by x is a permutation of its input and is sorted by x |
| ToneCurves.InsertPtWithKey | script.js:113 | an inserted point goes in front of every point that shares its x, and the other points of each x keep their order |
| ToneCurves.SortPtsStable | script.js:83 | the sort is stable: for every x, the points carrying it come out in the order they went in |
| ToneCurves.Bracket | script.js:100-101 | the bracket scan stops at an index of at most length-2; below that cap the next point's x reaches i; every point it passed had x below i |
| ToneCurves.Lut | script.js:97-106 | the table has 256 entries |
| ToneCurves.DefaultLutIsIdentity | script.js:66 | the default points (0,255) and (255,0) give table entry i equal to i |
| ToneCurves.LevelWithinSegment | script.js:102-104 | for sorted points and an input inside their x span, the bracket contains the input, and the inverted interpolated level lies between the inverted y values of its two ends |
| ToneCurves.BracketSpans | script.js:100-102 | for sorted points, the bracketing pair found by the scan spans the input |
| ToneCurves.InterpolateWithin | script.js:103-104 | the interpolation between two points, inverted, lies between their inverted y values, the divide-by-zero guard included |
| ToneCurves.LevelAtControlPoint | script.js:100-104 | with distinct x values, the level at a control point's x is 255 minus its y: the curve passes through its points |
| ToneCurves.CurvePoint.constructor | script.js:113 | a new point holds the given coordinates |
| ToneCurves.CurvePoint.Follow | script.js:118-119 | a dragged point's x is clamped to [1, 254] unless it is 0 or 255, which stays; its y is clamped to [0, 255] |
| ToneCurves.PointList.constructor | script.js:83 | a list holds the given point objects |
| ToneCurves.PointList.SortByX | script.js:120 | sorting in place keeps the same point objects and orders their coordinates as the stable sort by x does |
| ToneCurves.FreshCopies | script.js:83 | the deep copy made by `setPoints` is fresh, distinct objects with the given coordinates |
| ToneCurves.SortedCopy | script.js:83 | the copy made by `setPoints` is a fresh list of distinct objects whose coordinates are the stable sort of the given points |
| ToneCurves.BuildLut | script.js:97-106 | the table loop fills a fresh 256-byte array equal to the table specification for the current coordinates |
| ToneCurves.FindBracket | script.js:100-101 | the while loop finds exactly the bracket index of the specification |
| ToneCurves.InsertRefSpec | script.js:113 | inserting an object keeps the multiset of objects and inserts its coordinates as the value sort does |
| ToneCurves.SortedByX | script.js:113 | sorting objects gives a permutation whose coordinates are the stable sort of the original coordinates |
| ToneCurves.Without | script.js:111 | filtering out a point object removes every occurrence of it and nothing else |
| ToneCurves.WithoutSorted | script.js:111 | filtering a list sorted by x keeps it sorted |
| ToneCurves.ToneCurve.constructor | script.js:63-70 | a new widget has the default endpoints, no drag, a valid point list and the table of its points |
| ToneCurves.ToneCurve.GenerateLUT | script.js:97-106 | a fresh 256-entry table equal to the specification table of the current points |
| ToneCurves.ToneCurve.SetPoints | script.js:83 | the live list becomes fresh objects holding the sorted copy of the given points, and the table matches them |
| ToneCurves.ToneCurve.Reset | script.js:75 | the reset button restores the default endpoints and their table and reports a change |
| ToneCurves.ToneCurve.HitTest | script.js:108-109 | the scan answers the first point within 8 px in both directions |
| ToneCurves.FirstHit | script.js:109 | a hit is an index into the list |
| ToneCurves.FirstHitSpec | script.js:109 | a hit is within 8 px and no earlier point is; no hit means no point is within 8 px |
| ToneCurves.ToneCurve.OnMouseDown | script.js:107-115 | a ctrl-click on a hit point with x not 0 or 255, while more than two points exist, replaces the list with a filtered copy, regenerates the table and reports a change; another hit drags that point; a miss adds a point, keeps the list sorted and drags the new point |
| ToneCurves.ToneCurve.DeletePoint | script.js:111 | deleting gives a new list one shorter that leaves out the point, and a new table |
| ToneCurves.ToneCurve.AddAndDrag | script.js:113 | a click on empty space adds a fresh point, which becomes the dragged one, and the list stays the sorted insertion |
| ToneCurves.ToneCurve.AddPoint | script.js:113 | pushing then sorting keeps the list valid and inserts the point's coordinates in sorted position |
| ToneCurves.ToneCurve.OnMouseMove | script.js:116-121 | with a drag in progress, the point follows the mouse under the endpoint and range clamps and the live list is re-sorted; without one, nothing changes |
| ToneCurves.ToneCurve.Resort | script.js:120 | re-sorting keeps the objects and sorts their coordinates |
| ToneCurves.ToneCurve.OnMouseUp | script.js:122 | releasing ends a drag and regenerates the table, and reports a change exactly when a drag was in progress |
| Masks.Grid | script.js:321 | the coverage raster of a w x h canvas has w*h bytes |
| Masks.GridAt | script.js:321 | byte y*w+x of the raster is the coverage of pixel (x, y) |
| Masks.GenerateMaskPixelData | script.js:321 | no array (null) exactly for an unknown mask type; otherwise a fresh array holding the `ai` bytes verbatim, or the radial raster |
| Masks.FillGrid | script.js:321 | the nested fill loop produces exactly the raster |
| Masks.FillRow | script.js:321 | one pass of the inner loop extends the filled prefix by one row |
| Masks.RadialCentreFull | script.js:321 | the pixel exactly at the centre gets 255 |
| Masks.RadialOutsideAxis | script.js:321 | a pixel at least a radius away along either axis gets 0 |
| Masks.RadialInsideValue | script.js:321 | inside the ellipse, the stored coverage is within half a unit of (1 - sqrt(d)) * 255 |
| Masks.RadialFallsOff | script.js:321 | coverage never increases with the ellipse distance |
| Blur.CountPositive | script.js:333 | every window contains its own pixel, so the count is at least 1 |
| Blur.BlurValuesAt | script.js:333 | the three colour bytes of a pixel are its channel means and its alpha byte is 255 |
| Blur.MeanBetween | script.js:333 | a mean of values between lo and hi lies between lo and hi |
| Blur.BlurWithinWindow | script.js:333 | each blurred colour byte lies between the smallest and largest value of that channel in its in-bounds window |
| Blur.BlurKeepsFlatColour | script.js:333 | a window of one flat colour blurs to that colour |
| Blur.WindowTotals | script.js:333 | the dy loop sums the three channels and the in-bounds count over the whole window |
| Blur.RowTotals | script.js:333 | the dx loop sums one row of the window |
| Blur.BoxBlur | script.js:333 | a fresh array of the input's length whose every byte is the window mean of its channel, and 255 for alpha |
| Blur.BlurPixel | script.js:333 | one pixel of output is written and nothing else |
| Compositor.CurveLut | script.js:269 | a table is present exactly when curve points are given, and then it has 256 entries |
| Compositor.BlurImage | script.js:273 | the blurred copy has the buffer's length |
| Compositor.Blurring | script.js:273 | a blurred copy exists exactly when clarity is non-zero, and it has the buffer's length |
| Compositor.Rewritten | script.js:275-300 | rewriting the buffer pixel by pixel keeps its length |
| Compositor.Edited | script.js:268-302 | an edit pass keeps the buffer's length |
| Compositor.RewrittenIdentity | script.js:299-300 | a pass that gives every pixel its own colour leaves the buffer as it was |
| Compositor.ApplyEdits | script.js:268-302 | the in-place pass turns the buffer into the specification's edited buffer, with a blurred copy when clarity is non-zero and the curve table when points are given |
| Compositor.EditPixels | script.js:275-301 | the pixel loop rewrites each pixel to the pass's outcome and never writes an alpha byte |
| Compositor.EditPixel | script.js:276-300 | one iteration writes the outcome's three colour bytes at i..i+2 and leaves alpha and all other bytes alone |
| Compositor.EditedSkips | script.js:276 | alpha bytes never change; a pixel whose coverage is 0 is skipped; a coverage index past the array's end (NaN) writes 0 |
| Compositor.BlendBetween | script.js:299-300 | with coverage c the stored channel lies between the original and the fully edited value |
| Compositor.BlendOpaque | script.js:299-300 | full coverage, or no mask, stores the edited value |
| Compositor.BlendUnchanged | script.js:299-300 | an edit that changes nothing stores the original |
| Compositor.StoredMix | script.js:299-300 | blending then clamping stays between the original and the stored edited value |
| Compositor.MixBetween | script.js:299 | the blend lies between the original and the edited value |
| Compositor.PaintingDamped | script.js:299-300 | the per-pixel paint of a pass puts every channel between the original and the fully edited value |
| Compositor.PassBetween | script.js:275-300 | for any painter that blends by coverage, each byte of a masked pass lies between the original byte and the unmasked pass's byte |
| Compositor.EditedBetween | script.js:268-302 | each byte of a masked edit pass lies between the original and the unmasked edit |
| Compositor.ShadeBetween | script.js:299-300 | per channel, a partly covered pixel lies between the original and the fully covered pixel |
| Compositor.ZeroTransformsNothing | script.js:279-297 | with neutral colour maths and an identity table, the default edits transform every pixel to itself |
| Compositor.DefaultPassIsIdentity | script.js:268-302 | a pass with the default edits and an identity table leaves the buffer unchanged |
| Compositor.ShadowFraction | script.js:291 | the shadow-zone factor lum/85 lies in [0, 1] |
| Compositor.HighlightFraction | script.js:292 | the highlight-zone factor (lum-170)/85 lies in [0, 1] |
| Compositor.ZoneSatBetween | script.js:290-293 | the blended saturation shift lies between the smallest and largest of the three zone settings |
| Compositor.NoGradeWithoutSaturation | script.js:294 | with no positive zone saturation the HSL step is skipped and the colour is unchanged |
| Compositor.SaturatedKeepsMean | script.js:297 | the saturation step keeps the channel sum |
| Compositor.SaturatedExtremes | script.js:297 | saturation -100 makes the pixel grey, and 0 leaves it unchanged |
| Compositor.WarmedAdds | script.js:296 | two temperature shifts add up, and 0 changes nothing |
| Compositor.MaskPasses | script.js:255-258 | the mask passes keep the buffer's length |
| Compositor.MaskPassesAppend | script.js:255-258 | the passes over a concatenated mask list are the passes of the first part followed by those of the second: the masks apply in list order |
| Compositor.Composite | script.js:251-258 | a render keeps the base image's length |
| Compositor.RenderPasses | script.js:251-258 | the render loop produces the global pass with the curve table, followed by one pass per mask whose coverage is not null |
| Compositor.UnknownMaskIgnored | script.js:256 | a mask of unknown type does not change the render |
| Compositor.NewRadialMaskInvisible | script.js:241 | with neutral colour maths, adding a radial mask with default edits does not change the render |
| Compositor.DefaultPointsSorted | script.js:66 | sorting the default points keeps them |
| Compositor.DefaultRenderIsBase | script.js:245-258 | with neutral colour maths, default edits, the default curve and no masks, the render is the base image |
| Crop.FirstGrabSpec | script.js:323 | the scan answers a handle exactly when one is under the pointer, and then the earliest in table order |
| Crop.HandleNeverMove | script.js:323 | the hit test never answers `move` |
| Crop.CornersFirst | script.js:323 | when the top-left corner is grabbed, it wins over every other handle |
| Crop.Dragged | script.js:325 | after any drag step, width and height are at least 20 |
| Crop.NearSideSlides | script.js:325 | a left or top drag puts that side on the pointer; the opposite side stays until the box would be under 20, after which it is pushed to 20 past the pointer |
| Crop.FarSideStops | script.js:325 | a right or bottom drag keeps the opposite side and puts the dragged side on the pointer, but never less than 20 from the opposite side |
| Crop.MoveRecentres | script.js:325 | `move` puts the box's centre on the pointer and keeps a legal width and height |
| Crop.CornerDragAnchorsOpposite | script.js:325 | when no floor applies, a corner drag keeps the opposite corner fixed and brings the dragged corner to the pointer |
| Crop.CursorByAxis | script.js:324 | opposite handles share a cursor; only `move` shows the move cursor; only t and b show ns-resize, and only l and r ew-resize |
| Crop.CropBox.constructor | script.js:173 | a new box has the given position and size |
| Crop.CropBox.Update | script.js:325 | the fields after `updateCropBox` are the specification's dragged box |
| Crop.CropBox.HandleAt | script.js:323 | the loop over the handle table answers the specification's first grabbed handle |
| History.Pushed | script.js:208 | after a push the index stays in range and is the last position; entries up to the old index are kept in order, later ones are dropped, and the new entry is current |
| History.Loaded | script.js:211-213 | loading keeps the stack; the index moves to i only when i names an entry |
| History.MovesStayBounded | script.js:211-231 | load, undo and redo keep the stack and keep the index in range, and never go back to -1 once an entry exists |
| History.UndoRedoSteps | script.js:230-231 | undo moves back one exactly when the index is above 0; redo moves forward one exactly when a later entry exists |
| History.UndoRedoInverse | script.js:230-231 | redo after undo, and undo after redo, return to the same state |
| History.PushThenUndoRedo | script.js:208 | after a push there is nothing to redo, and undo returns to the entry that was current |
| History.Amended | script.js:236 | changing the current entry in place leaves every other entry and the index alone |
| History.FindMask | script.js:202 | the first mask with the id, or none when no mask has it |
| History.PanelIntoSpec | script.js:202 | the mask panel is read into the first mask with the active id, if one exists; every other mask, and all ids, names and shapes, stay as they were |
| History.Snapshot | script.js:196-206 | the pushed entry holds the live curve list, the action name and the source's active mask |
| History.SnapshotKeeps | script.js:196-206 | a snapshot keeps the mask list's ids and shapes in order, copies the masks unchanged when none is active, and takes each global slider's value |
| History.RemovedSpec | script.js:236 | the filter keeps exactly the masks whose id differs from the active one |
| History.WithMask | script.js:234 | a new mask is appended and becomes the active one |
| History.RadialMask | script.js:241 | a radial drag gives a mask exactly when both radii are at least 5; its centre is the drag's start, its radii the distances to the end, and its edits are the defaults |
| History.AmendAndPush | script.js:236 | an in-place change followed by a push leaves the index one higher and in range |
| History.UndoKeepsAmendment | script.js:234-241 | undo after an in-place change and push returns to the changed entry, not the original one |
| History.DeletedMaskStaysDeleted | script.js:236 | after deleting the active mask, neither the new entry nor the entry undo returns to contains a mask with its id |
| History.NewMaskTakesPanel | script.js:241 | after a mask is added, the pushed entry's new mask carries the mask panel's slider values, and the entry left behind carries the defaults |
| History.CurveChangeShared | script.js:157-162 | what the change handler would record with an image: the new entry, the entry left behind and the entry undo returns to all hold the live curve list |
| History.Editor.constructor | script.js:36-46 | the page starts with no image, an empty history at index -1, no tool, and the default curve with its widget in the page |
| History.Editor.PushHistory | script.js:194-210 | without an image nothing changes; otherwise the stack is truncated after the index, the snapshot appended, and the live curve widget is out of the page |
| History.Editor.LoadState | script.js:211-229 | an out-of-range index changes nothing; otherwise the index moves and the curve widget receives a fresh, sorted copy of the entry's points |
| History.Editor.Undo | script.js:230 | the session moves as the undo specification says |
| History.Editor.Redo | script.js:231 | the session moves as the redo specification says |
| History.Editor.CommitTransform | script.js:167-172 | the history becomes one entry with the default edits overlaid by the sliders, no masks and no active mask, at index 0, the tool is put down, and the live curve widget is out of the page |
| History.Editor.AmendThenPush | script.js:236 | the current entry is replaced, then a snapshot of it is pushed |
| History.Editor.DeleteActiveMask | script.js:236 | with no entry or no active mask nothing changes; otherwise the active mask is removed in place, the selection cleared, and a snapshot pushed |
| History.Editor.AddSubjectMask | script.js:234 | with an image and a model, an `ai` mask is appended in place and selected, and a snapshot pushed |
| History.Editor.SelectMask | script.js:311 | the active id is set in place on the current entry, no entry is pushed, and the curve is reloaded from the entry |
| History.Editor.CurveChanged | script.js:157-162 | without an image nothing changes; with one, the current entry is pointed at the live list and a snapshot is pushed |
| History.Editor.CurveMouseDown | script.js:107-115 | the history never changes; out of the page the widget ignores the click; a ctrl-delete leaves a fresh list one point shorter |
| History.Editor.ClickCurve | script.js:107-115 | the widget's own mouse-down keeps the history and the session invariant; a deletion leaves a fresh list one point shorter |
| History.Editor.CurveMouseMove | script.js:116-121 | dragging on the curve never changes the history; out of the page it changes nothing |
| History.Editor.CurveMouseUp | script.js:122 | the history never changes; out of the page the release is ignored |
| History.Editor.CurveReset | script.js:75 | the history never changes; in the page the button restores the default points, and out of it nothing happens |
| History.Editor.StartRadialTool | script.js:235 | with an image, the radial tool becomes current |
| History.Editor.StartCropTool | script.js:173 | with an image, the crop tool becomes current with a box covering the canvas |
| History.Editor.CancelCrop | script.js:179 | the tool is put down |
| History.Editor.OnCanvasMouseDown | script.js:239 | with an image, a drag starts; the crop tool holds the handle under the pointer, or `move`, and shows its cursor; the radial tool records the start |
| History.Editor.BeginDrag | script.js:239 | starting a drag sets the drag flag, the held handle, the cursor and the radial start, and keeps the session invariant |
| History.Editor.OnCanvasMouseMove | script.js:240 | during a crop drag the box follows the handle; during a radial drag the end point is recorded |
| History.Editor.OnCanvasMouseUp | script.js:241 | a drag ends; a radial drag with both radii at least 5 adds a mask in place and pushes, a shorter one is discarded, and the tool is put down |
| History.Editor.EndDrag | script.js:241 | ending a drag clears the flag, shows the default cursor, sets the tool and the radial drag, and keeps the session invariant |
| History.Editor.Render | script.js:245-258 | without an image there is no frame; otherwise the frame is the composite of the current entry's edits, live curve points and masks |

## Left out

- DOM and event wiring are not modelled. This covers `setupEventListeners`, `updateUI`'s list building and button states, `showLoader`/`hideLoader` and `requestAnimationFrame`. Slider values are method parameters.
- `loadState` also writes slider positions back to the page (lines 216-219 and 222-226). This is not modelled; only the index and the curve widget are.
- Canvas drawing and readback are not modelled. This covers `ToneCurve.draw`, `drawCropUI`, `drawRadialPreview`, the mask overlay in `render` (lines 261-263), and `putImageData`/`getImageData`.
- `History.Editor.CurveMouseDown`, `CurveMouseMove`, `CurveMouseUp`, `CurveReset`: model only the live widget. After the first render, the widget on screen is the temporary one that `applyEditsToData` builds (line 269). Its `onChange` does nothing, and it edits its own copy of the points, which the next render replaces. Those edits are dropped and are not modelled. `CurveChanged` and `History.CurveChangeShared` describe a handler path the page reaches only without an image.
- Image decoding, saving and the geometric transforms (`applyCrop`, `applyRotation`, `applyFlip`) are not modelled: they are canvas drawing and floating-point sizing. Only their shared history reset, `commitTransform`, is modelled.
- `History.Editor.CommitTransform`: sets the image flag itself. In the page, `handleImageLoad` assigns `originalImage` before the image has decoded, and that window is not modelled.
- Segmentation is not modelled: `createSubjectMask` calls an external model asynchronously, and `loadBodyPixModel` loads it. Its result and whether the model is loaded are parameters of `AddSubjectMask`.
- Presets (`savePreset`/`loadPreset`) are not modelled: they are JSON, Blob and FileReader I/O.
- Floating-point colour maths is kept abstract in `ColourMaths`. This covers exposure, contrast, highlights, shadows, dehaze and clarity (lines 281-287) and the `rgbToHsl`/`hslToRgb` round trip (line 294). Arithmetic is over exact reals, so there is no floating-point rounding and no NaN except the modelled coverage-index case.
- `Math.sqrt` is a function parameter with the properties the proofs use: 0 at 0, between 0 and 1 on [0, 1], and monotone.
- `Date.now()` is a text parameter, the stamp of the mask id.
- `History.Editor.constructor`: starts the radial drag at zeros and the crop box at zero size. The page starts both as empty objects. They are only read after a mouse-down or `startCropTool` sets them.
- `History.Editor.OnCanvasMouseUp`: resets the radial drag to zeros where the page assigns an empty object. The next mouse-down overwrites it before it is read.
- `History.Editor.DeleteActiveMask`: with no history entry, the handler fails on the missing entry. The model leaves the state unchanged, which is what the failed handler leaves.
- `ToneCurves.Point`, `ToneCurves.CurvePoint.Follow`, `ToneCurves.ToneCurve.HitTest`, `ToneCurves.ToneCurve.OnMouseDown`, `ToneCurves.ToneCurve.AddAndDrag`, `ToneCurves.ToneCurve.OnMouseMove`, `History.Editor.CurveMouseDown`, `History.Editor.ClickCurve`, `History.Editor.CurveMouseMove`: the model takes integer mouse offsets and integer point coordinates. Browsers may report fractional `offsetX`/`offsetY` (under zoom or subpixel layout), which the page stores unrounded (lines 108, 113, 118-119) and interpolates with (lines 100-104); fractional offsets are not covered.
- JSON deep copies are value copies: masks and parameters are immutable values. A JSON round trip would turn NaN slider values into null, and that is not modelled.

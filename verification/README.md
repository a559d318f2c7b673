# Canvas editor interaction model

A Dafny model of the interaction logic of a single-file, in-browser canvas
editor (`main.js`). The editor has two modes. In **move** mode the user
selects, drags and corner-resizes placed images. In **draw** mode the user
draws freehand strokes. The model covers:

- the editor state record and every transition: pointer-down, pointer-move,
  pointer-up/leave, the single-finger touch handlers, mode switch, clear, and
  placing a decoded image;
- the geometry: the closed point-in-rectangle test, the topmost-first image
  hit test, the corner-handle hit test, drag translation, and the
  aspect-locked incremental resize with its 20-pixel width floor;
- the stroke path lifecycle (start, continue, stop);
- the full redraw, as an abstract display list: the image layer, then the stroke layer over it.

Coordinates are Dafny `real`s, not IEEE doubles. The constant 0.7 is the
exact rational 7/10.

Modules:

- `Geometry` (geometry.dfy): points, corners, and `InRect` (`isPointInRect`).
- `Images` (images.dfy): placed images, initial placement, hit tests, drag and resize.
- `Strokes` (strokes.dfy): stroke paths and how they grow.
- `Editor` (editor.dfy): the state, events, and one function per handler.
- `EditorProperties` (editor_properties.dfy): properties of whole interactions, and worked examples.
- `Render` (render.dfy): `redrawCanvas` as a display list.

The event handlers take their inputs as parameters:

- Pointer positions arrive already canvas-relative.
- The confirmation dialog's answer is a boolean.
- A decoded bitmap is given by its native width and height, together with the canvas size at that moment.
- A touch event carries its finger count.

`Valid` is the invariant of every reachable state. It says three things:

- the selection is -1 or an index into the image list;
- every image has a positive native size, and its displayed height equals its width divided by the native aspect ratio;
- `resizing` is set exactly when a resize handle is recorded.

Behaviour of the code worth knowing, which the model keeps as it is:

- **Initial placement only shrinks.** A bitmap larger than 0.7 of the smaller canvas side is scaled down to that bound; a smaller one keeps its native size. On an 800×600 canvas a 200×100 image stays 200×100 at (300,250), and 420×210 at (190,195) is what a 1000×500 image gets. `PlacementExamples` proves both.
- **Dragging, resizing and drawing are not mutually exclusive.** Nothing in main.js prevents two of the flags being on at once. A second press on a handle while a drag is under way sets both the dragging and the resizing flag (`DragAndResizeCanOverlap`). The drawing flag also survives a switch to move mode.
- **One-point strokes are not redrawn.** The redraw skips paths with fewer than two points, so a tap in draw mode leaves only the dot drawn at the time, which the next full redraw erases. `DisplayList` does the same (`StrokeRendered`).
- **Clear during a stroke.** A confirmed clear during a stroke leaves `isDrawing` on with no paths. The next `continueDrawing` then fails reading the last path before it changes anything. The model treats that move as leaving the state unchanged (`ClearDuringStroke`).

## Model

| member | source | states |
|---|---|---|
| Geometry.InRect | main.js:397-399 | A point is inside exactly when its offset from the rectangle's origin lies between 0 and the size on both axes, edges included; a rectangle with a negative side contains nothing. |
| Geometry.InRectShift | main.js:397-399 | The test depends only on the point's offset from the origin: moving point and rectangle together does not change it. |
| Geometry.Rank | main.js:381-392 | Each corner's position in the hit-test order is the index of that corner in the order top-left, top-right, bottom-left, bottom-right. |
| Geometry.InRectClosed | main.js:397-399 | The rectangle test is closed: all four corners are inside, and a point just past any of the four edges is not. |
| Images.MaxDim | main.js:112 | The placement bound is non-negative and no larger than either canvas side. |
| Images.PlaceImage | main.js:110-124 | Placement keeps the native aspect ratio and never enlarges. Both sides end at most 0.7·min(canvas width, height). An image that fits keeps its native size; otherwise one side equals that bound. The image is centred on the canvas. |
| Images.PlacementExamples | main.js:110-124 | On an 800×600 canvas, 200×100 stays 200×100 at (300,250), and 1000×500 becomes 420×210 at (190,195). |
| Images.FitSize | main.js:110-120 | The fitted size stays within the bound and within the native size, keeps the native ratio, is the native size when that fits, and otherwise has one side equal to the bound. |
| Images.ImageAt | main.js:349-363 | Returns the largest index whose closed rectangle contains the point; no later image contains it. Returns -1 exactly when no image contains the point. |
| Images.GetImageAtPosition | main.js:349-363 | The top-down loop returns a hit with no hit above it, and agrees with `ImageAt`. |
| Images.TopmostWins | main.js:350-361 | Among overlapping images the most recently added one is picked. |
| Images.DragTo | main.js:365-368 | After a drag step, pointer minus image origin equals the recorded offset, and size and bitmap are unchanged. |
| Images.CornerPoint | main.js:381-390 | A left corner sits at the image's x and a right one at x plus width; a top corner at y and a bottom one at y plus height. Every corner lies in the image's own rectangle. |
| Images.HandleAt | main.js:374-395 | A returned corner's 10×10 box, centred on that corner, contains the point, and no earlier corner's box does (order: top-left, top-right, bottom-left, bottom-right). No corner is returned when no box contains the point. |
| Images.HandleAtCorner | main.js:381-392 | Pressing exactly on a corner of an image wider and taller than 5 picks that corner's handle. |
| Images.MoveCorner | main.js:411-435 | Before the floor, the dragged corner follows the pointer's horizontal delta. Height is width over the ratio. x moves only for left handles and y only for top handles, by the matching width or height change. |
| Images.ResizeImage | main.js:401-441 | After every step the width is at least 20 and height equals width over the native ratio. Without a clamp the corner opposite the handle keeps its position. When the clamp fires, width is 20 and x/y stay as already updated. |
| Images.ResizePinnedAtFloor | main.js:437-441 | At width 20, further shrinking deltas keep the width at 20. |
| Strokes.StartPath | main.js:308-315 | Appends exactly one path, with one point and the given colour and size, and keeps earlier paths. |
| Strokes.ExtendLast | main.js:327-329 | Appends the point to the last path only. Its colour and size are kept, and every other path is unchanged. |
| Strokes.GrowsAtEndCompose | main.js:305-329 | Growth at the end composes: earlier paths stay frozen and the last one only gains points. |
| Editor.Init | main.js:3-18 | The initial state is valid: move mode, no selection, no images or paths, no flags set. |
| Editor.SwitchMode | main.js:75-76 | Only the mode changes; an ongoing drag, resize or stroke is not cancelled. |
| Editor.ClearCanvas | main.js:155-162 | A confirmed clear empties images and paths and sets the selection to -1. A declined clear changes nothing. Flags are untouched. |
| Editor.AddImage | main.js:110-138 | The placed image is appended on top, the selection becomes the new last index, and the mode becomes move. Nothing else changes. |
| Editor.StartDrawing | main.js:305-315 | Sets the drawing flag and appends one one-point path with the current brush. Nothing else changes. |
| Editor.ContinueDrawing | main.js:324-329 | Without a stroke in progress this is a no-op. Otherwise the point is appended to the last path and all other paths are unchanged. |
| Editor.StopDrawing | main.js:344-346 | Clears the drawing flag only. |
| Editor.CheckResizeHandles | main.js:374-395 | With no selection no handle is hit. Otherwise it gives the first handle box of the selected image that contains the point. |
| Editor.PointerPressed | main.js:166-201 | Draw mode starts a stroke. In move mode a handle hit wins: it starts a resize anchored at the pointer and changes nothing else. Otherwise the selection becomes the topmost hit, or -1 exactly when nothing is hit, with no other change. A hit starts a drag whose offset is pointer minus image origin; apart from the selection, drag flag, anchor and offset, nothing changes. |
| Editor.ResizeStep | main.js:401-441 | The selected image is resized by the delta from the previous pointer position, which becomes the new anchor. Other images are untouched. |
| Editor.DragStep | main.js:365-368 | The selected image is placed at pointer minus offset with its size kept. Other images are untouched. |
| Editor.PointerMoved | main.js:203-217 | Draw mode continues the stroke. In move mode a resize takes precedence over a drag, with a selection required. Otherwise nothing changes. Selection, flags and offsets never change. |
| Editor.PointerReleased | main.js:219-227 | Draw mode clears the drawing flag and changes nothing else; with no stroke in progress nothing changes. Move mode clears dragging, resizing and the handle and changes nothing else; in particular the drawing flag stays. |
| Editor.Step | main.js:229-302 | Every event, touch events included, keeps the state valid. Every event except a confirmed clear changes the paths only at the end. |
| Editor.Run | main.js:44-63 | Any sequence of the registered events, from a valid state, ends in a valid state. |
| Editor.HandleOverlay | main.js:448-482 | Four corner positions, exactly in move mode with a selection, in the hit-test corner order; none otherwise. |
| EditorProperties.ReachableStatesValid | main.js:3-18 | Every state reachable from page load has a valid selection index and aspect-locked images. |
| EditorProperties.TouchIsPointer | main.js:230-302 | A one-finger touch start or move is the pointer event; other finger counts do nothing; touch end is pointer-up. |
| EditorProperties.DragKeepsOffset | main.js:186-194 | Over any non-empty sequence of drag moves the grab offset is unchanged and the pointer sits at that offset from the image origin. Size, the other images and the paths are unchanged. |
| EditorProperties.OverlayMatchesHandles | main.js:374-395 | Pressing on the k-th overlay point of a selection larger than half a handle starts a resize from the k-th corner, so overlay and hit test agree. |
| EditorProperties.DragNoJump | main.js:186-215 | Pressing on an image and moving to the same point leaves all images where they were. |
| EditorProperties.ResizeKeepsFloor | main.js:401-441 | Over any non-empty sequence of resize moves the image stays at least 20 wide and aspect-locked. The anchor is the last pointer position, and other images are unchanged. |
| EditorProperties.ResizeIsIncremental | main.js:403-435 | Two unclamped resize moves equal one move to the second position, and the opposite corner stays fixed. |
| EditorProperties.OnlyLastPathChanges | main.js:305-329 | Across any events without a confirmed clear, every path but the last is unchanged and the last one only gains points. |
| EditorProperties.StrokeExample | main.js:305-346 | Pressing at (10,10), moving to (20,10) then (20,20) and releasing leaves one path with those three points in order. |
| EditorProperties.TopLeftHandleExample | main.js:411-417 | A 200×100 image at (300,250) dragged by (+10,+10) on its top-left handle becomes 190×95 at (310,255). |
| EditorProperties.DragAndResizeCanOverlap | main.js:175-195 | A second press on a handle during a drag sets both the dragging and the resizing flags. |
| EditorProperties.ClearDuringStroke | main.js:324-329 | After a confirmed clear mid-stroke the drawing flag stays on with no paths, and moves change nothing. |
| Render.Drawable | main.js:502-503 | The stroke layer has no more entries than there are paths, and every entry has at least two points. |
| Render.DrawableExact | main.js:502-517 | Every path with at least two points is stroked, and nothing outside the path list is. |
| Render.DrawableAppend | main.js:502-517 | Strokes are drawn in path-list order: filtering a concatenation gives the filtered parts, concatenated. |
| Render.DrawableIdempotent | main.js:502-503 | Filtering the drawn strokes again changes nothing, so only the two-point rule decides what is drawn. |
| Render.DisplayList | main.js:485-518 | One image entry per image, in insertion order. An image is highlighted exactly when it is the selection and the mode is move, so at most one highlight is drawn, and there is one exactly when move mode has a selection. The strokes are exactly the paths with at least two points. |
| Render.StrokeRendered | main.js:502-517 | The three-point stroke redraws as one stroke; a one-point stroke redraws as nothing, and draw mode shows no highlight. |

## Left out

- Canvas raster calls (`clearRect`, `drawImage`, `strokeRect`, `arc`, `stroke`) are browser side effects. The redraw is modelled as a display list. Styling constants (highlight colour and line width, round caps) are not modelled.
- The eager dot at stroke start and the eager segment per move (main.js:318-321, 331-341) are not retained state. They are not modelled.
- DOM wiring is not modelled: listener registration, `resizeCanvas`, the class toggles in `setMode`, and handle element creation. The handle overlay is modelled as four corner coordinates (`HandleOverlay`).
- `FileReader`/`Image` decoding and the MIME check are asynchronous browser I/O. A decoded bitmap arrives as an `ImageDecoded` event carrying its native size and the canvas size. Zero-sized bitmaps are excluded (`Admissible`), because the resize ratio would be NaN or infinite in the JavaScript.
- `confirm()` is modelled as the boolean carried by the `Clear` event.
- `parseInt` of the brush slider and the colour input are UI parsing. Brush size is an integer and colour is an opaque string, both set by events.
- `preventDefault` and the `getBoundingClientRect` coordinate conversion are browser glue.
- IEEE floating-point rounding is not modelled; all geometry is exact real arithmetic.
- Uncaught exceptions are not modelled as outcomes. The only reachable one is reading the last path of an empty list in `continueDrawing`, and it happens before any state change, so the model leaves the state as it was.

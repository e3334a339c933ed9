# Proofs about the Bloom host

The Bloom host (`tools/rn-host-spike`) draws React Native applications with Skia in one loop, on one thread, and
hands slow work to others. Several of its parts are algorithms or state machines with guarantees of their own: a
window redrawn only where it changed must look as if drawn whole, no worker's answer may be slept through, no image
loaded twice or told of twice. This project models those parts in Dafny and proves the guarantees for every input and
every run. Two Python tools beside them (the fidelity comparison and the audit of an image's packages) are modelled
too. `dafny verify dfyconfig.toml` checks everything.

## How it is laid out

Where the source updates an object in place, the model is a class with that object's fields and methods; each method
is proved against functions of the old state, and each class's `Valid()` is the invariant every method keeps, so what
is proved from `Valid()` alone holds in every state of every run. Loops of the source are loops here. Floating point
is exact: `real`. What the source leaves to libraries (Skia's drawing, the decoders, the compositor's answers, zlib,
`pow`) is a parameter: any function, and any answer.

| files | of | main results |
|---|---|---|
| Geometry, Painter, Damage, DamageLimits, Placement, WindowDamage, Frames | the damage of a window | `Damage.CellUndamaged`, `Placements.SeenWhereDrawn`, `Frames.DamageSufficesExactly`, `WindowDamages.WindowDamage.Update` |
| Elevation, Canvas, HostWindow, Theme, Filters | the canvas that reuses the frame before, and the window shown of it | `HostWindows.EveryFrameIsWhole`, `HostWindows.HostWindow.Frame`, `HostWindows.ResizedIsWholeExactly`, `Themes.ThemeShownExactly`, `Filters.FilterSufficesExactly` |
| Sums, Ssim, Fidelity | the comparison of two screenshots | `Ssim.SsimBounds`, `Fidelity.Compare`, `Fidelity.MeanSimilarity`, `Fidelity.OneMeansAlikeExactly` |
| PngFilters, PngFile | the PNG reader and writer | `PngFilters.UnfilterInPlace`, `PngFiles.AnyEncodingRead`, `PngFiles.EveryPixelRead`, `PngFiles.RoundTrip` |
| Handoff | workers and the loop | `Handoff.NoWakeLost`, `Handoff.EveryAnswerTold`, `Handoff.ToldInOrder`, `Handoff.JoinedPerformed`, `Handoff.LeavingEnds` |
| ImageBooks, ImageHost | image loads | `Valid()` of `ImageHosts.Images`, `Answered`, `Sync`, `EverySourceOnce` |
| Accessibility, AccessibleMarks, AccessibleWalk, AccessiblePaths, AccessiblePlaces, AccessibleTree | the accessibility snapshot | `AccessibleTrees.AccessibilityTree`, `AccessiblePaths.PathsAreNodes`, `Accessibility.DecodeFlatten`, `AccessiblePlaces.PlaceItems` |
| Gradient | gradient stops | `Gradient.FixedStops`, `Gradient.FixedColouredExactly` |
| DragLog, DragEnds, DragDrop | drag and drop | `DragDrops.DragDrop.EveryEventInOrder`, `DragDrops.InnermostAnswers`, `Update`, `Deliver`, `DragEnds.EndsEarlyExactly` |
| Closure | what explains an installed package | `Closure.ClosureOf`, `Closure.ChainOf` |
| AnimationFrames | requestAnimationFrame | `AnimationFrames.AnimationFrames.RanInOrder` |
| Optional, Sets | an option type; a set that is not empty has an element | |

The damage proof is about single cells. A cell is the area one pixel of the canvas covers, in the window's logical
coordinates; a painter is any function from what `drawView` hands Skia to the colour of a cell; the ink of a view
lies in its ink rectangle, and its props, clip and opacity act on its whole subtree. The canvas's width in pixels is
part of the painter, read by the shadows of elevations alone. Two frames continue each other when a tag stays one
view's: it keeps its parent and its component. Canvas and window are followed as mosaics: frames each pixel of which
has the background and the canvas width it was drawn with.

The hand-off is a state machine. A step is what one thread does with no chance for the other to come between: under
the lock, one read or one write. A run is any sequence of enabled steps; a fair one goes on with each thing begun.

## What the code does not do

Each of these is a property that looks true and is not, with the condition under which it holds.

- **A region's own children.** The variant of `update` for a region (`damage.cpp:83-92`) compares the order of every
  view's children but the region's own. `DamageLimits.ReorderedRegion` gives two frames; `DamageLimits.OrderSufficesExactly`:
  damage suffices for all frames with two given lists of children if and only if their common ones keep their order,
  which is what `Damage.CellUndamaged` asks (`RootsInOrder`).
- **An Image's own props.** `drawsTheSame` (`renderer.cpp:1447-1472`) compares no ImageProps, though `drawImage` draws
  by them (`renderer.cpp:498-535`), so a new tint is not redrawn. `DamageLimits.RetintedImage` gives two frames;
  `DamageLimits.ImageSufficesExactly`: an Image that changes alone is drawn rightly by every painter if and only if it is
  not one that keeps all that is compared and changes its own props, or is never seen. `Damage.CellUndamaged` asks for
  none of those (`NoStaleImage`).
- **Fractional sizes.** Damage is clipped to the logical window, while the canvas is rounded up to whole pixels, so a
  change only in the last, partly covered column or row is dropped. `Frames.DamageSufficesExactly`: redrawing the
  damage suffices if and only if the sizes are whole pixels.
- **A theme change.** It empties the canvas and asks for a frame (`bloom-host.cpp:2314-2321`). A frame with no damage in
  an answered window is skipped (`bloom-host.cpp:2893`), so the old background stays (`Themes.ThemeUnseen`). One with
  damage draws the empty canvas whole, but hands over only its damaged rectangles (`bloom-host.cpp:2938-2954`), and the
  compositor takes no more, unless there are none or the size is new: the old background stays everywhere else
  (`Themes.ThemeHalfSeen`). `Themes.PresentedExactly`: such a frame is shown right if and only if all of it was taken, or
  the backgrounds are one, or every pixel left looks the same on both; `Themes.ThemeShownExactly` says when for all
  painters at once. The contract of `HostWindows.HostWindow.Frame` is exact in every state: it says which background and
  width each pixel kept and shown was drawn with, and that each picture is right if and only if these make no difference.
- **A resize under an elevation.** The light of an elevation's shadow is over the middle of the canvas
  (`renderer.cpp:743-744`), so a new width moves the shadow of every raised view; but a resize at one scale damages only
  the views that changed and what the window gained (`damage.cpp:104-107`, `damage.cpp:315`). `HostWindows.ShadowLeft`
  gives the frames. `HostWindows.ResizedIsWholeExactly`: damage suffices if and only if the width in pixels is the same or
  no shadow falls on a pixel outside the damage, which is what `HostWindows.DamagedIsWhole` and
  `HostWindows.EveryFrameIsWhole` ask (`ShadowsKept`); `Elevations.WidthSufficesExactly` says it of one cell.
- **A filter over children.** A child that changes is damaged where it draws, and its parent's filter is not looked at
  (`damage.cpp:119-179`). A blur of more than half a pixel, and a drop shadow that is moved or so blurred, carry the
  change to pixels around it; the colour matrices do not. `Filters.FilterSufficesExactly`: the children's damage suffices
  if and only if the filter has no effect of the first kinds.
- **A wake that stays.** `deliver` takes an answer and drains the eventfd; the worker writes only after its push, so
  the write may come after the drain. The eventfd is then readable with nothing queued, `deliver` returns before
  draining it, and the loop no longer sleeps until the next answer, though its comment says an application doing
  nothing never turns (`bloom-host.cpp:2979-2987`). `Handoff.SleepsAwake` is such a run.
  `Handoff.StaleExactly`: a wake is stale if and only if a write came after its answer was swapped out and drained for, and
  no answer was pushed since; `Handoff.NeverStaleExactly` says it of whole runs.
- **Uncovered pixels.** A side longer than eight whose length is no multiple of four has a rim no window reaches, so a
  similarity of 1 does not mean the crops are alike. `Fidelity.OneMeansAlikeExactly` gives both directions.
- **An ImageRef released.** Its load is not cancelled: it goes on and is told to nobody
  (`ImageHosts.Images.ReleaseRef`, `ImageHosts.Images.AnswerRef`); `ImageHosts.ReleasedWhileLoading` reaches it.
  `ImageHosts.Images.OrphanedExactly`: a load is nobody's if and only if its ImageRef was released and no view shares it.
- **Resized and back.** An expo-image view at the size of the picture it shows looks no further
  (`images.cpp:828`), though a decode for another size is on its way; when that arrives it is shown
  (`ImageHosts.BackTooSoon`). `ImageBooks.SizeEndsExactly`: a view brought to a size ends decoded at it, all it waits
  for arriving, if and only if it was not resized away and back while a decode was on its way, nor refused one.
- **Large collections.** A place and a count are computed in 64 bits and narrowed to 32.
  `AccessiblePlaces.PublishedExactly`: published within the collection if and only if its size is below 2³².
- **Two hints together.** The colour stop fixup (section 3.4.3 of CSS Images Module Level 3) forbids adjacent hints; the
  code does not check, and leaves stops without a colour. `Gradient.FixedColouredExactly`: it leaves none if and only if the
  ends are coloured and every hint before a hint is in the middle of its neighbours, or beside that hint and not beside
  the stop before (`Gradient.AdjacentHints` for two of them).
- **Two drops.** The window's presence is one value for all receipts. With two drops pending the window is told its drag
  ended once the first is delivered (`DragDrops.WindowEndsEarly`). `DragEnds.EndsEarlyExactly` gives the interleavings that
  come to it; with no drop while another is received it never does (`DragEnds.EndWaits`), and after one that is it always
  can (`DragEnds.SecondDropEndsEarly`).
- **Long chains.** The printed chain of reasons stops at twenty packages, then naming a dependency as its reason:
  exactly those of twenty steps or more (`Closure.ChainOf`, `Closure.LineChain`).
- **Data that breaks off.** `read_png` slices its rows, so data that ends in a row without a filter is read as a shorter
  image (`PngFiles.BrokenRead`; `PngFiles.WholeExactly` is the exact condition). Its docstring lists greyscale, RGB and
  RGBA; it reads grey with alpha too.

## Model

| member | source | states |
|---|---|---|
| Geometry.Outside | tools/rn-host-spike/damage.cpp:46-59 | pushes exactly the bands of `a` outside `b` after what was there; with `BandsAreDifference` that is the set difference |
| Geometry.BandsAreDifference | tools/rn-host-spike/damage.cpp:46-59 | at most four rectangles, pairwise disjoint, holding exactly the points of `a` that are not in `b` |
| Geometry.SymmetricDifference | tools/rn-host-spike/damage.cpp:171-173 | a cell that neither direction of `outside` reaches is covered alike by both rectangles: a flat resize damages all it changes |
| Geometry.BandsReach | tools/rn-host-spike/damage.cpp:315 | a cell of the new window that the old one did not reach is always inside what `outside` pushes |
| Geometry.Bounding | tools/rn-host-spike/damage.cpp:61-71 | the result holds every rectangle given, and lies in every rectangle that does |
| Painter.UnreachedDrawsNothing | tools/rn-host-spike/renderer.cpp:785-1033 | a subtree none of whose ink rectangles overlaps a cell leaves that cell as it was, for any clip, opacity and colour beneath |
| Painter.DrawnInOrder | tools/rn-host-spike/renderer.cpp:1022-1024 | views side by side are drawn one after the other, each over all before it |
| Painter.ClippedAway | tools/rn-host-spike/renderer.cpp:904-908 | outside the frame of a ScrollView, or of a view that clips, a cell is as if it had no children |
| Painter.ShadowBeneath | tools/rn-host-spike/renderer.cpp:880-882 | exactly a view with an elevation and a background is drawn over its shadow, cast before its layer begins |
| Painter.SeenThrough | tools/rn-host-spike/renderer.cpp:874-908 | a view that neither clips nor needs a layer draws, where its own ink is not, exactly its children, placed and faded by it |
| Painter.FadedOnce | tools/rn-host-spike/renderer.cpp:883-887 | what a layer holds is the same at every opacity and over every colour, so it is faded once, as a whole |
| Damage.CellUndamaged | tools/rn-host-spike/damage.cpp:94-183 | the soundness theorem: where no rectangle pushed for two consecutive trees overlaps a cell, drawing either tree whole gives the cell the same colour, for every painter and every pair of trees whose common views keep their parent and component, with the two conditions the findings above make exact |
| Damage.SameView | tools/rn-host-spike/damage.cpp:117-179 | a view in both frames leaves an undamaged cell the same, whatever it is drawn over, under any clip and opacity: induction over the whole subtree |
| Damage.SameKept | tools/rn-host-spike/damage.cpp:142-178 | the same for a view whose props and state did not change, its children added, gone, moved or reordered |
| Damage.OneSided | tools/rn-host-spike/damage.cpp:119-122 | a view only one frame draws, with its whole subtree, drew nothing at an undamaged cell |
| Damage.AgreeingHolds | tools/rn-host-spike/damage.cpp:26-43 | when every tag is one view's, the flat map of places still determines each subtree: what a lookup by tag finds is the view itself, where it is drawn |
| Damage.UnchangedIsUndamaged | tools/rn-host-spike/damage.cpp:94-183 | comparing a tree with itself damages nothing at all |
| DamageLimits.OrderSufficesExactly | tools/rn-host-spike/damage.cpp:83-92 | for any two lists of views drawn first: damage suffices, for every painter and every two frames with those lists, if and only if the views of both keep their order |
| DamageLimits.ImageSufficesExactly | tools/rn-host-spike/renderer.cpp:1447-1472 | an Image view changed alone is drawn rightly, by every painter that reads its props the same, if and only if something compared or moved changed, or nothing of its own did, or it is never seen |
| DamageLimits.ReorderedRegion | tools/rn-host-spike/damage.cpp:83-92 | two frames of a region whose own children swap: nothing is damaged, though the cell's colour changes |
| DamageLimits.RetintedImage | tools/rn-host-spike/renderer.cpp:1447-1472 | an Image view given another tint: nothing is damaged, though the cell's colour changes |
| Frames.Reduce | tools/rn-host-spike/damage.cpp:313-322 | the rectangles kept: each in the window and not empty, none twice, sixteen at most, and either exactly the clipped ones or their one bounding box |
| Frames.ReducedCovers | tools/rn-host-spike/damage.cpp:317-322 | clipping, removing repeats and merging lose no damage at any cell inside the window |
| Frames.ReducedInWindow | tools/rn-host-spike/damage.cpp:317-322 | nothing kept lies outside the window or is empty |
| Frames.RegionIsOverlap | tools/rn-host-spike/renderer.cpp:1373-1384 | rounding outward draws again exactly the pixels whose cell a rectangle overlaps: none missed, none beyond |
| Frames.CellsInWindow | tools/rn-host-spike/renderer.h:38-49 | every pixel of the canvas lies in the logical window if and only if both sides are whole pixels at the scale |
| Frames.DamageSufficesExactly | tools/rn-host-spike/damage.cpp:313-322 | redrawing only the damage gives the full frame for every pair of trees if and only if both sides of the window are whole pixels; otherwise a view past the edge is a counterexample |
| WindowDamages.Collect | tools/rn-host-spike/damage.cpp:26-43 | adds exactly the subtree's drawn views, each at its place, to those collected before |
| WindowDamages.CollectScene | tools/rn-host-spike/damage.cpp:75-92 | the map of a whole scene, from a window's root or from a region's children at its origin; and said from frames and offsets alone, what is seen for each tag: `SeenWhereDrawn` |
| Placements.SeenWhereDrawn | tools/rn-host-spike/damage.cpp:26-43 | a tag has a rectangle seen if and only if a path of drawn views leads to it; that is its frame, moved by the frames and shifts of the views above it and back by the content offset of each ScrollView among them, with what it draws beyond on each side |
| Placements.ScrollingMoves | tools/rn-host-spike/damage.cpp:38-41 | scrolling a ScrollView by (dx, dy) more moves every view in it by exactly (-dx, -dy), and neither itself nor any other view of the subtree's map |
| Placements.ViewDamaged | tools/rn-host-spike/damage.cpp:117-179 | a view whose children keep their order, from what changed of it: both subtrees if it is drawn otherwise; nothing if neither its rectangle nor its layout changed; exactly where the two rectangles differ if it is flat and stays at its corner; else both; and its rectangle for a new picture or new layers |
| WindowDamages.PushSubtree | tools/rn-host-spike/damage.cpp:110-115 | pushes exactly the ink rectangles of the subtree as that frame drew it, following tags through the flat map |
| WindowDamages.PushIfSeen | tools/rn-host-spike/damage.cpp:110-115 | the same where the frame has the view, and nothing where it has not |
| WindowDamages.KeptIn | tools/rn-host-spike/damage.cpp:147-153 | the children of one list that are in the other, in the first list's order |
| WindowDamages.WindowDamage.PushReordered | tools/rn-host-spike/damage.cpp:142-165 | children whose relative order changed are damaged in both frames, subtrees and all; otherwise nothing |
| WindowDamages.WindowDamage.PushView | tools/rn-host-spike/damage.cpp:117-179 | what one view of both frames damages, branch by branch, is the damage the soundness theorem is about; `ViewDamaged` says what that is |
| WindowDamages.WindowDamage.PushGone | tools/rn-host-spike/damage.cpp:180-182 | every view gone is damaged where it was |
| WindowDamages.WindowDamage.Differences | tools/rn-host-spike/damage.cpp:116-183 | the two loops together push exactly the damage `CellUndamaged` is proved for |
| WindowDamages.WindowDamage.Update | tools/rn-host-spike/damage.cpp:94-331 | nothing is returned exactly for the first frame and a new scale; else the reduced damage of the two frames with what the window gained; and the frame given becomes the one compared with next |
| HostWindows.DrawDamaged | tools/rn-host-spike/renderer.cpp:1494-1525 | the canvas kept where both sizes overlap, and every damaged pixel drawn anew; an empty canvas is drawn whole |
| HostWindows.Present | tools/rn-host-spike/window.cpp:347-371 | what is shown takes the whole canvas with no damage or at another size, and otherwise exactly the damaged pixels, region by region |
| HostWindows.DamagedIsWhole | tools/rn-host-spike/bloom-host.cpp:2890-2917 | at a whole-pixel size, over the frame before drawn whole, redrawing the reduced damage gives this frame drawn whole, pixel for pixel, for every painter that reads props alike, if no shadow falls on a pixel left as a canvas of another width had it |
| HostWindows.ResizedIsWholeExactly | tools/rn-host-spike/damage.cpp:104-107 | for every pair of frames and sizes at one scale: the damage suffices for every painter that reads props alike if and only if the pixel width is the same or no shadow of an elevation falls on a pixel outside it |
| HostWindows.ShadowLeft | tools/rn-host-spike/renderer.cpp:743-744 | any raised view that stays as it is while its window is resized: a pixel its shadow falls on is not damaged and is drawn otherwise at the new width |
| HostWindows.EveryFrameIsWhole | tools/rn-host-spike/bloom-host.cpp:2885-2966 | on every frame of every run of frames that follow each other, drawn anew, skipped or reused (then with no shadow left behind), at whole-pixel sizes, the canvas kept and the window shown both equal a full draw of that frame |
| HostWindows.StepFollows | tools/rn-host-spike/bloom-host.cpp:2885-2966 | a frame that left the canvas and the window as `Frame` says, on the background of the one before and with no shadow left behind, is a step of such a run |
| HostWindows.HostWindow.Frame | tools/rn-host-spike/bloom-host.cpp:2885-2966 | a frame is drawn if and only if the compositor waits for one, the painter or scale is new, it is the first, or something changed in the window; the canvas and what is shown after it, and with what background and canvas width each pixel of either was drawn; either is the frame drawn whole if and only if every pixel looks the same with those as with the current ones |
| HostWindows.HostWindow.Draw | tools/rn-host-spike/bloom-host.cpp:2904-2954 | of any two mosaics, canvas and window, of the frame before: drawing the damage and handing it over leaves two mosaics of this frame, their shades exactly as told |
| HostWindows.HostWindow.ChangePainter | tools/rn-host-spike/bloom-host.cpp:2758-2767 | with `Frame`: the next frame is drawn, whatever changed |
| HostWindows.HostWindow.ChangeAppearance | tools/rn-host-spike/bloom-host.cpp:2314-2321 | the kept canvas is given up and the background changes, while what is shown and all it was drawn with stay |
| Canvases.UntouchedPixel | tools/rn-host-spike/damage.cpp:313-322 | a pixel outside the reduced damage was on the canvas before, and both frames draw it alike with any background, any canvas width and any painter that reads props alike |
| Canvases.RenewedMosaic | tools/rn-host-spike/renderer.cpp:1494-1525 | over a frame whose pixels were drawn with any mix of backgrounds and widths, redrawing the damage gives the next frame with the same mix but for the damaged pixels, now current |
| Canvases.TakenMosaic | crates/oxyos-client/src/lib.rs:209-232 | handing over only the damage leaves what is shown a frame of the new tree, its damaged pixels with the canvas's shades and the others with those they were shown with |
| Canvases.MosaicIsWhole | tools/rn-host-spike/bloom-host.cpp:2906-2917 | such a frame is the one drawn whole if and only if each pixel looks the same with the current background and width |
| Themes.ThemeUnseen | tools/rn-host-spike/bloom-host.cpp:2314-2321 | for any painter and two colours, a host that reaches it: theme changed, a frame asked for and none drawn, and the window still the old background and not the new |
| Themes.ThemeHalfSeen | tools/rn-host-spike/bloom-host.cpp:2938-2954 | for any painter and any view that appears after a theme change, a host that reaches it: the frame is drawn and its canvas right, while a pixel away from the view is still shown on the old background |
| Themes.PresentedExactly | crates/oxyos-compositor-core/src/scene.rs:2636-2654 | after a theme change, a frame drawn whole and handed over by its damage is shown right if and only if it was taken whole, or the backgrounds are one, or every pixel outside the damage looks the same on both |
| Themes.ThemeShownExactly | crates/oxyos-compositor-core/src/scene.rs:2636-2654 | for every painter that reads props alike: if and only if there was no damage, the size changed, the backgrounds are one, or the damage holds every pixel |
| Elevations.WidthSufficesExactly | tools/rn-host-spike/renderer.cpp:736-749 | for any two frames and an undamaged cell: what one width drew is right at another, for every painter that reads props alike, if and only if the widths are one or no drawn elevation casts its shadow there |
| Elevations.UncastSame | tools/rn-host-spike/renderer.cpp:785-1033 | a subtree casting nothing on a cell draws it the same at every canvas width: induction over the whole subtree, under any clip, opacity and layers |
| Elevations.TracingDraws | tools/rn-host-spike/renderer.cpp:785-1033 | a painter of shadows alone shows the canvas's width on exactly the cells `Casts` names, through every layer and clip |
| Elevations.DamagedAlike | tools/rn-host-spike/damage.cpp:94-183 | what two frames damage, and whether they continue each other, is the same for all painters that read props, borders and scrolling alike |
| Filters.FilterSufficesExactly | tools/rn-host-spike/damage.cpp:119-179 | for every list of effects: the damage of a filtered view's children suffices, for all their changes and whatever Skia makes of the effects, if and only if none of them spreads |
| Filters.PixelAlone | tools/rn-host-spike/background.cpp:900-926 | effects of which none spreads give a pixel a colour that depends on that pixel of the layer alone |
| Filters.SpreadFails | tools/rn-host-spike/background.cpp:928-939 | with any effect that spreads, a child appearing beside a pixel changes it undamaged |
| Filters.ViewFilter | tools/rn-host-spike/background.cpp:900-926 | the loop composes the effects in their order, each over what the ones before give |
| Sums.BoxFromTable | tools/rn-host-spike/fidelity.py:241-242 | for any field and any box, four entries of its summed-area table give the direct sum over the box |
| Ssim.MixedNonnegative | tools/rn-host-spike/fidelity.py:190-193 | the Cauchy-Schwarz step: vx + vy + 2s cov computed from the sums is never negative for s = ±1, and zero only when x + s y is one value over the window |
| Ssim.DeviationSum | tools/rn-host-spike/fidelity.py:190-193 | the moments computed from raw sums are the sums of squared deviations |
| Ssim.SsimBounds | tools/rn-host-spike/fidelity.py:190-193 | for luminances, never negative, a window's similarity lies in (-1, 1], and is 1 if and only if the two windows agree at every pixel |
| Ssim.SsimSymmetric | tools/rn-host-spike/fidelity.py:190-193 | swapping the crops changes nothing |
| Ssim.FlatSimilarity | tools/rn-host-spike/fidelity.py:179-193 | two flat windows of values a and b: (2ab + 6.5025) / (a² + b² + 6.5025) |
| Ssim.SameMeanSimilarity | tools/rn-host-spike/fidelity.py:179-193 | two windows of one mean: (2 cov + 58.5225) / (vx + vy + 58.5225) |
| Fidelity.WindowsCover | tools/rn-host-spike/fidelity.py:183-187 | windows are never empty, stay in the side, and cover exactly its pixels before the last stride ends (all of a side of eight or less) |
| Fidelity.WholeCovered | tools/rn-host-spike/fidelity.py:183-187 | every pixel of a side is covered if and only if the side is at most eight or a multiple of four |
| Fidelity.Differences | tools/rn-host-spike/fidelity.py:203-215 | total, count over the tolerance, largest difference and both luminance arrays are those defined pixel by pixel |
| Fidelity.NoDifference | tools/rn-host-spike/fidelity.py:205-213 | the total is 0, and the largest difference is 0, exactly when the two crops' bytes are equal |
| Fidelity.OverLargest | tools/rn-host-spike/fidelity.py:210-213 | no pixel is over the tolerance exactly when the largest difference is within it |
| Fidelity.TotalOfBytes | tools/rn-host-spike/fidelity.py:203-209 | the total is the distance of the two crops' bytes, summed byte by byte |
| Fidelity.LargestOfBytes | tools/rn-host-spike/fidelity.py:208-213 | no byte is further apart than the largest difference, and one is exactly as far |
| Fidelity.OverOfPixels | tools/rn-host-spike/fidelity.py:208-211 | the count over the tolerance is the number of pixels with a channel further apart than it |
| Fidelity.Integrate | tools/rn-host-spike/fidelity.py:216-235 | after the loops every entry of the five flat arrays is the summed-area table of x, y, x², y² and xy, for every size |
| Fidelity.BoxOf | tools/rn-host-spike/fidelity.py:241-242 | four entries of a built table are the direct sum over the window |
| Fidelity.Compare | tools/rn-host-spike/fidelity.py:196-245 | the four figures, computed through the integral images, are those defined by direct sums over every window |
| Fidelity.MeanSimilarity | tools/rn-host-spike/fidelity.py:236-244 | the mean similarity of two crops lies in (-1, 1], and is 1 if and only if their luminances agree at every covered pixel |
| Fidelity.OneMeansAlikeExactly | tools/rn-host-spike/fidelity.py:183-187 | a similarity of 1 means equal luminances everywhere if and only if both sides are covered whole; otherwise a black crop with one blue pixel in its last corner is a counterexample |
| Handoff.InvAlways | tools/rn-host-spike/application.cpp:93-153 | the invariant of the protocol holds in every state of every interleaving of worker and host steps, with any number of services of either kind |
| Handoff.InvKept | tools/rn-host-spike/application.cpp:108-153 | each of the nineteen kinds of step keeps it |
| Handoff.WorkerKeeps | tools/rn-host-spike/application.cpp:116-139 | a worker's step keeps its service's answers conserved and its wake owed |
| Handoff.HostConserves | tools/rn-host-spike/application.cpp:141-153 | a host step neither loses, repeats nor reorders a request or an answer, also while a swapped batch is being told |
| Handoff.HostKeepsWake | tools/rn-host-spike/application.cpp:141-153 | draining the eventfd after the swap never takes the only wake of an answer still queued |
| Handoff.NoWakeLost | tools/rn-host-spike/bloom-host.cpp:2988-3027 | asleep with an answer queued, the eventfd is readable or the worker is between its push and its write |
| Handoff.ToldInOrder | tools/rn-host-spike/application.cpp:141-153 | in every run the answers told are a prefix of those awaited, in the order asked, each at most once |
| Handoff.JoinedPerformed | tools/rn-host-spike/account-session.cpp:45-51 | once its worker is joined, AsyncStorage has performed every request ever asked, AccountSession a prefix of its jobs |
| Handoff.NeverStuck | tools/rn-host-spike/application.cpp:93-153 | no run is ever stuck: the loop can go on until every worker is joined, but for a sleep with nothing readable and a join of a worker not returned, which can go on then |
| Handoff.LeavingEnds | tools/rn-host-spike/application.cpp:98-139 | once the loop leaves, every run ends, within a number of steps counted from the requests left and where each worker is: with `NeverStuck`, at every worker joined |
| Handoff.TurnTells | tools/rn-host-spike/application.cpp:141-153 | in an endless fair run, everything pushed before a turn is told by the end of its deliveries |
| Handoff.EveryAnswerTold | tools/rn-host-spike/bloom-host.cpp:2988-3027 | in every endless fair run, from every state, every answer pushed is told in the end, or the host is leaving: sleep does not hold one for ever |
| Handoff.StaleBegins | tools/rn-host-spike/application.cpp:136-153 | a step leaves an eventfd readable with nothing queued if and only if it is a write that comes after its answer was swapped out and the eventfd drained |
| Handoff.StaleEnds | tools/rn-host-spike/application.cpp:141-153 | and it stays so until, and only until, the next answer is pushed |
| Handoff.StaleExactly | tools/rn-host-spike/application.cpp:116-153 | in every run and at every point: a wake is stale if and only if a write came late and no answer was pushed since |
| Handoff.NeverStaleExactly | tools/rn-host-spike/application.cpp:116-153 | a run never has a stale wake if and only if none of its writes came late |
| Handoff.StaleStays | tools/rn-host-spike/application.cpp:141-153 | an eventfd left readable with nothing queued stays so through every step of any run until the next answer is pushed |
| Handoff.SleepsAwake | tools/rn-host-spike/bloom-host.cpp:2979-2997 | a run that reaches it: the loop has gone to sleep, nothing is asked, queued or performed, and the eventfd is readable |
| ImageBooks.ImageStories | tools/rn-host-spike/images.cpp:671-719 | a trace that breaks no rule is, since its last `loadStart`, progress events then at most one of load or error followed by its `loadEnd` |
| ImageBooks.ExpoStories | tools/rn-host-spike/images.cpp:905-952 | for expo-image: progress, then at most one of `display` and `load`, or `error` |
| ImageBooks.SyncPhase | tools/rn-host-spike/images.cpp:353-416 | what `sync` tells a view of a source, anew or only at another size, leaves its trace within the grammar, so the same source is never started or answered twice |
| ImageBooks.OutcomePhase | tools/rn-host-spike/images.cpp:905-952 | a result told for the source ends its story, and one for a placeholder or a resized decode adds nothing to it |
| ImageBooks.ReleasedBooks | tools/rn-host-spike/images.cpp:257-264 | releasing an id leaves every other load still waited for and every waiting view's load alive |
| ImageBooks.GoneBooks | tools/rn-host-spike/images.cpp:619-626 | taking an answered load off leaves the books true but for those about to be told of it |
| ImageBooks.ToldAllBooks | tools/rn-host-spike/images.cpp:627-659 | and once all of them are told, the books are whole again |
| ImageBooks.AwaitingExpo | tools/rn-host-spike/images.cpp:636-645 | whoever waits for the answered load is an expo-image view whose source was told no result yet |
| ImageBooks.NoSecondSince | tools/rn-host-spike/images.cpp:378-384 | beginning no second load for a key on its way composes over any number of steps |
| ImageHosts.Images.constructor | tools/rn-host-spike/images.cpp:168-183 | with no views and no loads, the books and the stories hold |
| ImageHosts.Images.Waited | tools/rn-host-spike/images.cpp:247-255 | an id is waited for exactly when an Image view, a request of an expo-image view or an ImageRef waits for it |
| ImageHosts.Images.Release | tools/rn-host-spike/images.cpp:257-264 | a load goes exactly when nobody waits for it, and no other does |
| ImageHosts.Images.SyncImage | tools/rn-host-spike/images.cpp:329-417 | for any source chosen: the same key and URI change nothing; anything else leaves the view waiting exactly when the source can be read, no picture is held and a load is on its way or begins; drawing the picture held, or what it drew while it waits or was told already, or else nothing; told within the grammar; at most one load begun, and only for a key not on its way; only the load it gave up can go |
| ImageBooks.OneShown | tools/rn-host-spike/images.cpp:347-417 | what a sync of a source leaves of its view, branch by branch: what is shown, told and drawn; and every other view as it was |
| ImageHosts.Images.ShowBroken | tools/rn-host-spike/images.cpp:359-367 | a source that cannot be read leaves the view waiting for nothing, told its error once |
| ImageHosts.Images.ShowHeld | tools/rn-host-spike/images.cpp:368-377 | a picture held is drawn at once, and told once |
| ImageHosts.Images.ShowRefused | tools/rn-host-spike/images.cpp:404-412 | a load refused leaves the view waiting for nothing, told its error once |
| ImageHosts.Images.ShowWaiting | tools/rn-host-spike/images.cpp:414-416 | the view waits for the live load, and the one it waited for goes if nobody else does |
| ImageHosts.Images.ShowLoading | tools/rn-host-spike/images.cpp:378-417 | a load of the same key on its way is shared; one begins only when there is none |
| ImageHosts.Images.Forget | tools/rn-host-spike/images.cpp:287-290 | a view gone takes its load with it only if nobody else waits for that load |
| ImageHosts.Images.Loaded | tools/rn-host-spike/images.cpp:679-699 | the picture is drawn; `load` and `loadEnd` are told only the first time for the source |
| ImageHosts.Images.Failed | tools/rn-host-spike/images.cpp:701-719 | the error and `loadEnd` are told, and the picture removed, only when no result of the source was told |
| ImageHosts.Images.Cancel | tools/rn-host-spike/images.cpp:900-903 | a request waits no more, and its load goes exactly when nobody else waits for it |
| ImageHosts.Images.ExpoLoaded | tools/rn-host-spike/images.cpp:905-938 | a picture for the source tells `display` and `load`, one for a placeholder or a resized decode tells nothing, and a view gone is told nothing |
| ImageHosts.Images.SourceLoaded | tools/rn-host-spike/images.cpp:924-937 | the source's picture ends its placeholder's wait, and is told once |
| ImageHosts.Images.ExpoFailed | tools/rn-host-spike/images.cpp:940-952 | only the source's failure is told, and once |
| ImageHosts.Images.Request | tools/rn-host-spike/images.cpp:875-898 | a held picture is given at once; else the first load on its way is shared, or one begins, or the request is refused and so told |
| ImageHosts.Images.CancelAll | tools/rn-host-spike/images.cpp:847 | a view's three requests wait for nothing, and no load another waits for goes |
| ImageHosts.Images.ClearExpo | tools/rn-host-spike/images.cpp:1015-1025 | a view asked for nothing waits for nothing, shows nothing and was told nothing |
| ImageHosts.Images.ShowAnew | tools/rn-host-spike/images.cpp:841-873 | a new source or placeholder: one `loadStart`, then its outcome at once if it is at hand or refused; the placeholder is asked for only while no result was told |
| ImageHosts.Images.Resize | tools/rn-host-spike/images.cpp:822-840 | the same source at another size: no second `loadStart`, no second result, and nothing at all when the key is one asked for already |
| ImageHosts.Images.AskAgain | tools/rn-host-spike/images.cpp:829-836 | while still on its way it is asked for again at the new size as the same request for its events |
| ImageHosts.Images.Redecode | tools/rn-host-spike/images.cpp:837-839 | once shown it is decoded at the new size and not one event is told |
| ImageHosts.Images.SyncExpo | tools/rn-host-spike/images.cpp:785-873 | every branch: locked, empty, anew, resized or unchanged, each with exactly the events it tells; a picture not at hand that can be asked for is waited for; and no second load for a key |
| ImageBooks.EndsThere | tools/rn-host-spike/images.cpp:905-922 | whatever pictures arrive, in whatever order, the decode a view comes to show stays the one it was bound for |
| ImageBooks.SizeEndsExactly | tools/rn-host-spike/images.cpp:822-840 | brought to a size, a view ends decoded at it, all it waits for arriving, if and only if it was not resized away and back with a decode on its way, nor refused the decode |
| ImageHosts.BackTooSoon | tools/rn-host-spike/images.cpp:822-840 | a host that reaches it for any two sizes: shown small, made big, small again before its decode arrived, and at rest with the big one |
| ImageHosts.Images.AnswerImages | tools/rn-host-spike/images.cpp:627-635 | every Image view that waited is told, drawn and waits no more; no other is touched |
| ImageHosts.Images.AnswerExpos | tools/rn-host-spike/images.cpp:636-645 | the same for every request of every expo-image view, whatever earlier tellings cancelled |
| ImageHosts.Images.AnswerRef | tools/rn-host-spike/images.cpp:646-659 | the ImageRef that waited is settled once; one released meanwhile is told nothing |
| ImageHosts.Images.Answered | tools/rn-host-spike/images.cpp:619-660 | an answer for an id not in the books changes nothing and reaches no one; any other reaches everyone who waits for it, once, and nobody else; bookkeeping and grammar hold after |
| ImageHosts.Images.Progressed | tools/rn-host-spike/images.cpp:513-534 | progress reaches exactly the waiting views that were told no result yet |
| ImageHosts.Images.ForgetExpo | tools/rn-host-spike/images.cpp:268-278 | an expo-image view gone releases its three requests and loses no load another waits for |
| ImageHosts.Images.GoneImages | tools/rn-host-spike/images.cpp:279-291 | exactly the views gone or no longer images are forgotten, the others as they were |
| ImageHosts.Images.DropGone | tools/rn-host-spike/images.cpp:268-291 | after it each view's slot is what it was, if the tree still has such a view, and else shows nothing; what is drawn and told stays |
| ImageHosts.Images.SyncNone | tools/rn-host-spike/images.cpp:320-327 | an Image view without a source shows nothing and, if it showed something, draws nothing; no other view changes |
| ImageHosts.Images.SyncSource | tools/rn-host-spike/images.cpp:329-417 | an Image view of a source: what is shown, told and drawn of it, branch by branch from what was; no other view changes |
| ImageHosts.Images.SyncView | tools/rn-host-spike/images.cpp:293-418 | the same for any view, an expo-image view's picture untouched here; no other view changes |
| ImageHosts.Images.Sync | tools/rn-host-spike/images.cpp:266-418 | after it every view of the tree is what `SyncView` says from what it was, down to what it draws, whatever order the views are walked in; the views gone are forgotten; and no second load was begun for any key on its way |
| ImageHosts.Images.Deliver | tools/rn-host-spike/images.cpp:420-483 | each answer of a batch, in order, is told to exactly those who waited in the state the one before left, and to nobody if its load was cancelled; pictures nobody keeps go last; the invariant holds and nothing answered is still on its way |
| ImageHosts.Images.SetLocked | tools/rn-host-spike/images.cpp:1139-1141 | only the flag changes, a view never shown included |
| ImageHosts.Images.Reload | tools/rn-host-spike/images.cpp:1143-1148 | a source asked for anew, locked or not, tells a whole new story |
| ImageHosts.Images.LoadRef | tools/rn-host-spike/images.cpp:1203-1223 | an ImageRef has a load of its own and a number never used, or is told at once that it cannot start |
| ImageHosts.Images.ReleaseRef | tools/rn-host-spike/images.cpp:1225 | only the ImageRef is forgotten; it orphans a load if and only if that is its own, still on its way and shared by no view |
| ImageHosts.Images.OrphanedExactly | tools/rn-host-spike/images.cpp:247-255 | in every state: a load on its way is nobody's, neither a view's nor a live ImageRef's, if and only if it is that of an ImageRef released since and no view shares it |
| ImageHosts.ReleasedWhileLoading | tools/rn-host-spike/images.cpp:1203-1225 | a host that reaches it: asked for and released, the load goes on for nobody |
| ImageHosts.Images.EverySourceOnce | tools/rn-host-spike/images.cpp:347-416 | in every state the class can be in, each view's events since its last `loadStart` are one story of the grammar |
| ImageHosts.Images.EveryEarlierSourceOnce | tools/rn-host-spike/images.cpp:347-416 | and what it was told between any two starts is one story too |
| Accessibility.FlattenAppend | tools/rn-host-spike/accessibility.cpp:187-303 | the flat list of two forests is the two lists, the second's indices moved by the first's length |
| Accessibility.DecodeFlatten | tools/rn-host-spike/accessibility.cpp:187-303 | the list with its depths alone decodes back to the very forest it was made of |
| Accessibility.FlattenParented | tools/rn-host-spike/accessibility.cpp:201-218 | each parent index precedes its node, a node is one deeper than its parent, and what a node holds follows it contiguously |
| AccessibleMarks.MarkingHead | tools/rn-host-spike/accessibility.cpp:201-209 | a node takes the mark looked for, and is the first of the view it is looked for in |
| AccessibleMarks.MarkingBare | tools/rn-host-spike/accessibility.cpp:283-287 | a bare live region never takes it: the first node it holds does |
| AccessibleMarks.MarkingJoin | tools/rn-host-spike/accessibility.cpp:273-275 | siblings: the mark is the first unmarked one's, across both, exactly |
| AccessibleMarks.MarkingAt | tools/rn-host-spike/accessibility.cpp:301-302 | a mark set at a view and not taken in it is looked for no further |
| AccessibleWalks.Walk.Add | tools/rn-host-spike/accessibility.cpp:201-218 | the node is appended with the marks looked for, which are looked for no more |
| AccessibleWalks.Walk.Visit | tools/rn-host-spike/accessibility.cpp:187-303 | appends exactly the preorder of the specified forest under the given parent and depth, marked exactly at the first node of the focused view and of each dismissable one; `WalkRead` says by paths which views are in that forest |
| AccessibleWalks.Walk.Own | tools/rn-host-spike/accessibility.cpp:233-298 | the four cases of a view: element, bare live region, loose text, or nothing of its own |
| AccessiblePaths.PathsAreNodes | tools/rn-host-spike/accessibility.cpp:187-303 | by path and without the walk: a view has a node if and only if the path to it meets no hidden view, itself included, no other surface below the start and no loose Paragraph above it, and it is an element, or, with no accessible element above, a live region that is no Paragraph or a Paragraph with words |
| AccessiblePaths.TreeRead | tools/rn-host-spike/accessibility.cpp:187-303 | the flat list has one node for each of those paths, in reading order, each that of the view at the end of its path, and under the closest view above that has one |
| AccessiblePaths.WalkRead | tools/rn-host-spike/accessibility.cpp:187-303 | both of what a walk from its start appends: nothing of a hidden view's subtree, in particular |
| AccessiblePaths.TagsRead | tools/rn-host-spike/accessibility.cpp:194 | a tag is in a list so read if and only if a path leads to a view of that tag that has a node |
| AccessiblePaths.MarkLands | tools/rn-host-spike/accessibility.cpp:195-209 | a mark set at some views lands, by path, on exactly the first node that is not bare among each such view and the views in it |
| AccessiblePlaces.MembersAre | tools/rn-host-spike/accessibility.cpp:395-401 | a group's items are exactly the rows or tabs whose nearest list it is, in reading order |
| AccessiblePlaces.MemberRank | tools/rn-host-spike/accessibility.cpp:403-410 | the k-th item of a group is numbered k + 1: the numbers are 1 to n, each once |
| AccessiblePlaces.DeclaredExactly | tools/rn-host-spike/accessibility.cpp:372-393 | an item declares its place if and only if it has a row and fits the nearest collection that holds it; it is then published at row × columns + column + 1 of rows × columns, in 32 bits, a missing column 0 and columns at least 1 |
| AccessiblePlaces.CountedExactly | tools/rn-host-spike/accessibility.cpp:395-402 | an item is counted in a list if and only if it declares no place, and is a row held by that list with neither list nor row between them, or a tab so held by a tab list |
| AccessiblePlaces.DeclaredWithin | tools/rn-host-spike/accessibility.cpp:382-393 | a declared place satisfies 1 ≤ position ≤ count, as long as the count is one in 32 bits |
| AccessiblePlaces.PublishedExactly | tools/rn-host-spike/accessibility.cpp:386-391 | every item that fits its collection is published within it if and only if rows × columns is below 2³² |
| AccessiblePlaces.RowMajor | tools/rn-host-spike/accessibility.cpp:385-386 | the next column is the next place, and a row starts right after the one before it ends |
| AccessiblePlaces.PlaceDeclared | tools/rn-host-spike/accessibility.cpp:379-402 | the first pass: every declared place, and every group's items by index |
| AccessiblePlaces.CountRows | tools/rn-host-spike/accessibility.cpp:403-410 | the second pass numbers every group, in whatever order the map is walked, and touches no other node |
| AccessiblePlaces.PlaceItems | tools/rn-host-spike/accessibility.cpp:372-411 | every node is placed where the definition says, from the nodes alone |
| AccessibleTrees.FocusFamily | tools/rn-host-spike/accessibility.cpp:195-196 | the views focus is looked for under are exactly the one with the focused tag, if the walk meets it |
| AccessibleTrees.FocusedOnce | tools/rn-host-spike/accessibility.cpp:201-209 | the first node under the focused view that is not bare is one node |
| AccessibleTrees.AccessibilityTree | tools/rn-host-spike/accessibility.cpp:415-431 | the published list is the nodes of exactly the views a path of open views leads to, in reading order under the closest above, so a tag is listed if and only if such a path ends at it; focused is exactly the first node, not bare, at or under the focused view, and dismissing is offered by exactly the first such of each modal and of a popup that is the surface; it decodes to the forest, is parented and contiguous, has one node focused at most, and places every item |
| Gradient.KeepPositions | tools/rn-host-spike/background.cpp:434-454 | positions resolved along the gradient and never before one before, and missing ones reported exactly |
| Gradient.KeptOrdered | tools/rn-host-spike/background.cpp:437-453 | whatever is declared, the positions there are never decrease |
| Gradient.PercentOfLength | tools/rn-host-spike/background.cpp:425-429 | a percentage is that share of the gradient line's length in points, 100% its end |
| Gradient.SpreadPositions | tools/rn-host-spike/background.cpp:455-468 | the loop with `lastDefined` gives every missing position its even share between its two neighbours with one |
| Gradient.SpreadIn | tools/rn-host-spike/background.cpp:460-463 | the k-th of n missing stops is k/(n + 1) of the way |
| Gradient.SpreadSorted | tools/rn-host-spike/background.cpp:455-468 | after it every stop has a position and none is before the one before |
| Gradient.HintAtOrder | tools/rn-host-spike/background.cpp:501-510 | a hint's nine stops are in order and between its two neighbours, whichever side is longer |
| Gradient.HintCases | tools/rn-host-spike/background.cpp:488-500 | a hint goes if its sides differ by less than 0.00001, takes the colour of the stop after it or before it if it is nearer than that to the other, and else becomes nine stops |
| Gradient.HintShares | tools/rn-host-spike/background.cpp:501-510 | the stops of a hint lie at thirteenths of its longer side and at thirds of its shorter |
| Gradient.BlendChannel | tools/rn-host-spike/background.cpp:472-478 | a blended channel, rounded to nearest, lies between the two |
| Gradient.BlendChannels | tools/rn-host-spike/background.cpp:472-478 | each channel of a blend, alpha, red, green and blue, is the nearest to that share between the same channel of the two colours |
| Gradient.HintWeighted | tools/rn-host-spike/background.cpp:511-520 | a stop made of a hint blends its two neighbours channel by channel, weighted by where it and the hint are between them |
| Gradient.HintSorted | tools/rn-host-spike/background.cpp:479-521 | replacing one hint keeps the whole list positioned and sorted |
| Gradient.ExpandHint | tools/rn-host-spike/background.cpp:483-520 | one hint's edit in place: what was before and after stays, and the length change is the change of `indexOffset` |
| Gradient.ExpandHints | tools/rn-host-spike/background.cpp:469-522 | with `out[i + indexOffset..] == fixed[i..]` kept by the loop, every index is in range, and the result is the expansion |
| Gradient.ExpandSorted | tools/rn-host-spike/background.cpp:479-521 | expanding all hints keeps the list positioned and sorted |
| Gradient.ExpandKeeps | tools/rn-host-spike/background.cpp:479-521 | a stop with a colour is never lost, nor is the last |
| Gradient.ExpandColoured | tools/rn-host-spike/background.cpp:479-521 | at any point of the loop: all stops end coloured if and only if those made are, the last is, and every hint still to come before another hint closes |
| Gradient.ColouredExactly | tools/rn-host-spike/background.cpp:479-521 | for any stops with positions, runs of hints included: all end coloured if and only if the first and the last are and every hint before a hint closes |
| Gradient.AdjacentHints | tools/rn-host-spike/background.cpp:488-520 | two hints between coloured stops: all end coloured if and only if the first is in the middle, or beside the second and not beside the stop |
| Gradient.FixedStops | tools/rn-host-spike/background.cpp:423-523 | for a positive length: the three passes in place give the specified stops, all positioned and nondecreasing |
| Gradient.FixedKeeps | tools/rn-host-spike/background.cpp:423-523 | every stop declared with a colour is drawn with it |
| Gradient.FixedColouredExactly | tools/rn-host-spike/background.cpp:423-523 | for every declaration: every stop drawn is coloured if and only if the first and last declared are and every hint before a hint closes |
| Gradient.FixedColoured | tools/rn-host-spike/background.cpp:423-523 | declared without two hints together, every stop drawn is coloured if and only if the first and last declared are |
| DragLog.SumTargets | tools/rn-host-spike/drag.cpp:359-364 | a log that breaks no rule has its target events matched: each enter with nothing entered, each over and leave in the target entered |
| DragLog.SumWindow | tools/rn-host-spike/drag.cpp:376-392 | its window events strictly alternate enter and exit, and an exit that says dropped comes after some `finishDrop` since its enter |
| DragLog.SumFinishes | tools/rn-host-spike/drag.cpp:531 | the `finishDrop`s counted, offer by offer |
| DragDrops.FindTarget | tools/rn-host-spike/drag.cpp:297-327 | the innermost view of the path that takes a type offered, and nothing only when none does |
| DragDrops.AnswerAllowed | tools/rn-host-spike/drag.cpp:314-336 | a drop zone is answered with a type the drag offers, of a kind it takes, an action it allows, and exactly the actions it declares; `InnermostAnswers` says which type and which is preferred |
| DragDrops.InnermostAnswers | tools/rn-host-spike/drag.cpp:281-350 | what is answered, in its own terms: for the innermost view that takes something; a zone as the first type of the first kind offered, whatever its capitals, its first action preferred, but for files into a folder where copy and move are allowed Move if and only if all are on its volume, else Copy; Copy alone with no action; over a text input the first text type, both actions, Move preferred exactly for its own text; with nothing taken no type and no action |
| DragDrops.DragDrop.Update | tools/rn-host-spike/drag.cpp:282-365 | for a complete offer the last answer sent is the one `InnermostAnswers` describes, sent again only when it changed; the target events move from the one entered to the one found |
| DragDrops.DragDrop.Reply | tools/rn-host-spike/drag.cpp:346-353 | the compositor is answered exactly when the answer is not the last one sent |
| DragDrops.DragDrop.Leave | tools/rn-host-spike/drag.cpp:394-398 | the target entered is left, and no offer remains |
| DragDrops.DragDrop.Enter | tools/rn-host-spike/drag.cpp:572-592 | a drag already over is left first; the window is told only if no drag was over it; an offer with nothing to tell is answered at once |
| DragDrops.DragDrop.OfferType | tools/rn-host-spike/drag.cpp:593-598 | one more type of this drag alone, up to those expected; answered once complete |
| DragDrops.DragDrop.OfferFileType | tools/rn-host-spike/drag.cpp:600-610 | the same for a file's type at its last chunk |
| DragDrops.DragDrop.OfferVolume | tools/rn-host-spike/drag.cpp:612-622 | the same for a volume at its last chunk |
| DragDrops.DragDrop.Motion | tools/rn-host-spike/drag.cpp:623-629 | another drag's motion changes nothing; this one's is answered for where it is |
| DragDrops.DragDrop.ActionChanged | tools/rn-host-spike/drag.cpp:630-635 | a new action is told to the target entered, and nothing else changes |
| DragDrops.DragDrop.LeaveEvent | tools/rn-host-spike/drag.cpp:636-638 | only this drag's leave is one |
| DragDrops.DragDrop.Mounted | tools/rn-host-spike/drag.cpp:367-369 | after a commit, a complete offer's last answer is the one for the new tree |
| DragDrops.DragDrop.DropEvent | tools/rn-host-spike/drag.cpp:400-462 | every drop of this drag is finished at once or has one receipt; the target entered is left; presence says which |
| DragDrops.DragDrop.Deliver | tools/rn-host-spike/drag.cpp:464-538 | each receipt ended is given to its target and finished, in order, the open ones kept in order |
| DragDrops.DragDrop.Observed | tools/rn-host-spike/drag.cpp:376-381 | a drag over with no offer left has left the window, which is told once |
| DragDrops.DragDrop.RanJavaScript | tools/rn-host-spike/drag.cpp:383-392 | a delivered drop ends the window's drag, and a drag over meanwhile enters it |
| DragDrops.DragDrop.EveryEventInOrder | tools/rn-host-spike/drag.cpp:559-641 | in every state the class can be in: targets matched, window events alternating, and every drop finished once or still on its way, as multisets |
| DragEnds.EndsEarlyExactly | tools/rn-host-spike/drag.cpp:383-392 | over every history of drops, receipts' ends and JavaScript's runs: the end is told early if and only if JavaScript runs after the last drop settled and before another, with a receipt open |
| DragEnds.EndWaits | tools/rn-host-spike/drag.cpp:383-392 | if every drop comes with nothing being received, the end is never told early |
| DragEnds.SecondDropEndsEarly | tools/rn-host-spike/drag.cpp:400-462 | after any drop that comes while one is being received, one receipt's end and JavaScript's run suffice to end it early |
| DragDrops.DragDrop.EndIsEarlyExactly | tools/rn-host-spike/drag.cpp:376-392 | in every state the class can be in: JavaScript run now ends it early if and only if a drop is delivered and another received still, which is exactly what the history says |
| DragDrops.DragDrop.EndWaits | tools/rn-host-spike/drag.cpp:383-392 | with no drop while another was received, a delivered drop leaves nothing to receive |
| DragDrops.WindowEndsEarly | tools/rn-host-spike/drag.cpp:383-392 | two drops pending, one delivered: the window is told its drag ended while the other is still being received |
| Closure.Providers | scripts/check-image-contents.py:137-143 | a name's providers are exactly the package of that name and the packages that provide it |
| Closure.ClosureOf | scripts/check-image-contents.py:203-215 | terminates; a package is explained if and only if some path of relations from an installed root reaches it; each reason is of a package explained before it |
| Closure.Follow | scripts/check-image-contents.py:209-214 | one package's relations: every provider of every alternative explained, nothing else, and queued exactly when new |
| Closure.OrderReached | scripts/check-image-contents.py:211-214 | everything explained is reached: soundness, by the order of explaining |
| Closure.ExactlyReached | scripts/check-image-contents.py:283-285 | a package is unexplained exactly when no dependency path reaches it |
| Closure.ChainOf | scripts/check-image-contents.py:260-265 | the links follow recorded reasons without a cycle; they end at a root if and only if the package is fewer than twenty steps from one |
| Closure.LineChain | scripts/check-image-contents.py:260-265 | for a line of any number of packages: its last one's chain ends at the one asked for if and only if that is fewer than twenty steps away, so longer ones are cut |
| AnimationFrames.AnimationFrames.Request | tools/rn-host-spike/animation-frames.cpp:25-32 | a new handle, waiting; each handle ever given is in exactly one of waiting, running, ran and cancelled |
| AnimationFrames.AnimationFrames.Cancel | tools/rn-host-spike/animation-frames.cpp:37-44 | a callback not run yet never is; one that ran, or was never asked for, is left as it is |
| AnimationFrames.AnimationFrames.Tick | tools/rn-host-spike/animation-frames.cpp:47-68 | a frame begins exactly when something waits, the window is ready and a period has passed; all that waited, in order, gets one task each |
| AnimationFrames.AnimationFrames.RunTask | tools/rn-host-spike/animation-frames.cpp:58-64 | the first task calls its callback, or nothing exactly when it was cancelled |
| AnimationFrames.AnimationFrames.Close | tools/rn-host-spike/animation-frames.cpp:14-17 | after the host goes nothing waits and queued tasks call nothing |
| AnimationFrames.AnimationFrames.RanInOrder | tools/rn-host-spike/animation-frames.cpp:19-68 | callbacks ran once each, in request order, none after its cancellation, each in a frame later than the one that asked |
| AnimationFrames.TickKeeps | tools/rn-host-spike/animation-frames.cpp:54-66 | a frame's new tasks follow those still queued in handle order |
| AnimationFrames.TaskPlace | tools/rn-host-spike/animation-frames.cpp:59-62 | a queued task's callback is in its frame still or was cancelled, never already run |
| PngFilters.UnfilterFilter | tools/rn-host-spike/fidelity.py:134-152 | for each of the five filters, any row, row above and bytes per pixel, undoing the filter gives the row back |
| PngFilters.FilterUnfilter | tools/rn-host-spike/fidelity.py:134-152 | and filtering what was read gives the line back, so each line is of exactly one row |
| PngFilters.UnfilterInPlace | tools/rn-host-spike/fidelity.py:134-152 | the loops over the bytearray leave it the unfiltered row, though each reads bytes it has already rewritten |
| PngFilters.UnfilteredBytes | tools/rn-host-spike/fidelity.py:136-152 | each byte of a row in numbers, filter by filter, from its line, the byte to the left, the one above and the one above that |
| PngFilters.Paeth | tools/rn-host-spike/fidelity.py:147-152 | the predictor is one of its three neighbours |
| PngFiles.NumberWord | tools/rn-host-spike/fidelity.py:116 | a big-endian length written is the length read |
| PngFiles.ReadChunks | tools/rn-host-spike/fidelity.py:114-124 | the loop over the chunks finds what the definition does, short headers and bodies included |
| PngFiles.ReadRows | tools/rn-host-spike/fidelity.py:131-155 | the loop over the rows gives the joined rows, or none where Python would raise |
| PngFiles.ReadPng | tools/rn-host-spike/fidelity.py:109-165 | reads exactly what the definition says of every byte string, or none; `EveryPixelRead` says which byte becomes which channel |
| PngFiles.ScanChunks | tools/rn-host-spike/fidelity.py:115-124 | chunks of any kinds are passed over to the byte, each IDAT's data joined |
| PngFiles.EncodedRead | tools/rn-host-spike/fidelity.py:131-155 | rows encoded each with any filter are read back, whatever data follows |
| PngFiles.AnyEncodingRead | tools/rn-host-spike/fidelity.py:109-165 | an image encoded with any filter per row, IDAT split anywhere and any other chunks between is read as itself, for each colour type |
| PngFiles.EveryPixelRead | tools/rn-host-spike/fidelity.py:109-165 | and by index: of 3·width·height bytes read, byte 3k + c is byte 4k + c of the rows for RGBA, 3k + c for RGB, k for grey and 2k for grey with alpha |
| PngFiles.WholeRowsShown | tools/rn-host-spike/fidelity.py:155-165 | the same of any whole rows of the four colour types |
| PngFiles.KnownFile | tools/rn-host-spike/fidelity.py:109-165 | one file written out byte by byte, its second row filtered by the first, read as the pixels it has |
| PngFiles.RoundTrip | tools/rn-host-spike/fidelity.py:168-174 | given zlib's two inverse functions, what `write_png` writes is read back as the same image |
| PngFiles.KnownWritten | tools/rn-host-spike/fidelity.py:168-174 | one file as it is written, byte by byte, down to which bytes each checksum is of |
| PngFiles.WholeExactly | tools/rn-host-spike/fidelity.py:131-157 | an RGB image read has all its bytes if and only if the inflated data has every row |
| PngFiles.BrokenRead | tools/rn-host-spike/fidelity.py:133-134 | data that breaks off in a row without a filter is read with no error |

## Left out

Windows and frames:

- Rotations and scales, SVG pictures, modals, stretches, scrollbars, the caret and the focus ring, blur targets and masked views: not in the painter's tree.
- Damage.CellUndamaged: a view's filter is part of how its layer is blended, cell by cell; filters that read other cells are in Filters alone.
- What of an elevation's shadow falls outside its view's ink rectangle: the painter draws a shadow within it.
- `OXYOS_DAMAGE_NEGATIVE_CONTROL`, `OXYOS_DAMAGE_TRACE` and the checks that compare a frame with a full draw: they are for finding faults.
- Views whose tag changes its parent or component between two frames: excluded by `Continues`, on React Native's word.
- HostWindows.EveryFrameIsWhole: for frames that continue each other (`Continues`), with neither a region's children reordered nor an Image's own props changed (`Compared`), at whole-pixel sizes, on one background and with no shadow left behind: the first five findings above.
- HostWindows.HostWindow.Frame: the same first three conditions (`Frames.DamageSufficesExactly` shows that other sizes fail); for a compositor whose configures each ask for a frame, so an answered window has the size of its last one, and which takes of a frame just the damage it is told of, as decision 3 of `docs/adr/0005-damage.mdx` has it.
- The rest of the loop, its reports, the GPU's check, the compositor, Fabric and Hermes.

Screenshots:

- Fidelity.Compare: needs crops with at least one pixel, where Python divides by zero; rounding is not modelled, nor the numpy path.
- Heatmaps, thresholds, reports and the programs they start.
- PngFiles.ReadPng: every exception of Python's is one absent result; zlib and its checksum are functions, and the checksum is not looked at, as the reader does not.
- `Image.crop`: a slice a row.

Hand-off:

- Sockets, connectivity, the session's subscription and secrets; a write of the eventfd that fails; deadlines, which only wake the loop sooner.

- Handoff.EveryAnswerTold: for runs in which JavaScript's turns end, poll returns once a descriptor is readable, and a worker is scheduled again.

Images:

- Layers, transitions, animation frames, recycling keys and publishing: they follow what is shown and start no load.
- SVG images, and the second decode of an undecodable file as SVG: it keeps the same load.
- The size, prefetch and cache requests, tint, `connect` and `clearCache`.
- ImageHosts.Images.SyncImage: whether a source can be read is a fixed function of its URI, and the source chosen for a size is given.
- ImageBooks.SizeEndsExactly: layers are left out, so the key of a view's source stands for the decode it shows.
- ImageHosts.Images.EverySourceOnce: for views whose listening flag is constant and tags that are never used again.

Accessibility:

- Names, values, actions, rectangles and live texts of a node: its content is opaque but for what placing reads.
- Which view the snapshot starts from (modals, navigation), secure fields, and publishing.

Gradients:

- Gradient.BlendChannel: a weighting is a real in [0, 1], so one that is not finite is left out, as is floating-point rounding.
- The shaders built from the stops.

Drag and drop:

- The client's own drags (`start`, its icon, its promises) and the presses they begin at.
- Pipes: how each receipt ends (whole, failed or still open) is an input of `Deliver`.
- DragDrops.InnermostAnswers: whether the types of the files fit a zone is given with the target, as is the volume of its folder.
- What the events carry.

Packages and callbacks:

- Reading dpkg's status file and choosing the roots.
- AnimationFrames.AnimationFrames.Request: does not model 32-bit wrap-around of handles, nor arguments of the wrong type.
- AnimationFrames.AnimationFrames.Tick: for a display whose refresh period stays the same.

Left for being easy: key chords, the clipboard, frame diagnostics, configuration lists and the sound scripts.

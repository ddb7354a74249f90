# MyContacts: centre-locking layout, scroll synchronisation and density-suffixed image names

This project models the logic of the MyContacts Android app in Dafny. The app has three pieces of logic:

- **CLLayoutManager** is a horizontal layout manager that keeps one item locked in the centre.
  - It attaches a window of child views, one per adapter position, each at a horizontal extent.
  - It fills the window from the left when laying out.
  - On a scroll it fills the edge being revealed, recycles the children outside the parent's bounds, then moves everything by the consumed amount.
  - It clamps scrolling at both ends: when the first or last item is already attached before the scroll, its centre stops on the parent's midpoint.
  - It also answers scroll-vector queries, validates smooth-scroll targets, decides what a tap requests and computes the centring move.
- **CLSyncMediator** couples a horizontal list (h) with a vertical one (v).
  - The touch that starts a gesture marks its view as the source.
  - A scroll watcher per view adds up how far that view has scrolled.
  - While the mediator is synced, a scroll of the source view asks the other view to move to the same proportional position. A scroll of the other view asks for nothing, so the mediator's own corrections never echo back.
- **ContactsRepo.getImageByDensity** rewrites an avatar's file name for the display density.

The modules are:

- `JavaInt`: Java's truncating integer division, `JavaDiv`, and facts about it.
- `LayoutWindow`: the layout manager's window as values.
  - A `Layout` holds the first position and the attached `Child`ren, each with its position, extent and focus.
  - Each step of the manager is a function of the old window.
  - The lemmas say what those functions promise.
- `CenterLockLayout`: the class `LayoutManager`, with the fields `firstPosition` and `children`.
  - Its methods edit the children in place with the source's loops.
  - Each method is proved to leave exactly the window that the matching `LayoutWindow` function computes.
- `SyncMediation`: the classes `EventSource`, `ScrollWatcher` and `SyncMediator`, and the correction rule as functions.
- `ContactsRepo`: the file-name rewrite.
- `Wrappers`: `Option` and `Result`.

Some details of the source that the model keeps:

- A tap on the snap view, once centred within 4 pixels, requests the tapped item's own position (CLLayoutManager.java:58-65).
- The scroll clamp looks only at the children attached before the scroll. When the first or last item is among them, the clamp stops that item's centre on the midpoint, even when all items fit in the parent (CLLayoutManager.java:147-160).
- The correction is truncated toward zero by an `(int)` cast (CLSyncMediator.java:81, 98).
- `unsync` removes only the correcting listeners, so the scroll watchers keep counting (CLSyncMediator.java:59-62).
- `onLayoutChildren` returns early on any pre-layout pass, and when the structure did not change, whether or not children are attached (CLLayoutManager.java:88).

## Model

| member | source | states |
|---|---|---|
| LayoutWindow.AppendedShape | app/src/main/java/io/korok/mycontacts/view/CLLayoutManager.java:116-126 | A left-to-right fill attaches consecutive positions from the start position, starting at x, each abutting the previous and exactly as wide as measured, unfocused, each starting short of the limit. It attaches nothing iff no position remains or x already reaches the limit. Otherwise it stops only when the limit is reached or the last item is attached. |
| LayoutWindow.PrependedWindow | app/src/main/java/io/korok/mycontacts/view/CLLayoutManager.java:187-195 | The right-to-left fill attaches consecutive positions ending at the start position, abutting, as wide as measured. The last one ends at the old leading edge, and no position below 0 is attached. |
| LayoutWindow.PrependedEdges | app/src/main/java/io/korok/mycontacts/view/CLLayoutManager.java:187-195 | The right-to-left fill attaches nothing iff no position remains or the edge is already at or before the limit. What it attaches is unfocused and ends beyond the limit. It stops only once the limit is reached or position 0 is attached. |
| LayoutWindow.FillTrailingWellFormed | app/src/main/java/io/korok/mycontacts/view/CLLayoutManager.java:199-219 | fillWhenScrollLeft keeps the window well formed: child k shows position first + k, children are contiguous and measured. The first position and the old children, in front, are unchanged. |
| LayoutWindow.FillTrailingEdges | app/src/main/java/io/korok/mycontacts/view/CLLayoutManager.java:199-219 | fillWhenScrollLeft is a no-op on an empty window or when dx <= 0. What it adds is unfocused and starts short of width + dx. It stops only once the trailing edge reaches width + dx or the last item is attached. |
| LayoutWindow.FillLeadingWellFormed | app/src/main/java/io/korok/mycontacts/view/CLLayoutManager.java:178-196 | fillWhenScrollRight keeps the window well formed and the old children at the back. firstPosition moves back by exactly the number of children prepended. |
| LayoutWindow.FillLeadingEdges | app/src/main/java/io/korok/mycontacts/view/CLLayoutManager.java:178-196 | fillWhenScrollRight is a no-op on an empty window or when dx >= 0. What it adds is unfocused and ends beyond dx. It stops only once the leading edge is at or before dx or position 0 is attached. |
| LayoutWindow.FirstRetainedIsFirst | app/src/main/java/io/korok/mycontacts/view/CLLayoutManager.java:231-240 | The scan's `first` is a focused or in-bounds child, and no child before it is. |
| LayoutWindow.RetainedEndIsLast | app/src/main/java/io/korok/mycontacts/view/CLLayoutManager.java:231-240 | The scan's `last` is a focused or in-bounds child, and no child after it is. |
| LayoutWindow.RetainedSpan | app/src/main/java/io/korok/mycontacts/view/CLLayoutManager.java:231-240 | Some child is retained iff the retained span is non-empty, and the first retained slot comes before the end of the span. |
| LayoutWindow.Prune | app/src/main/java/io/korok/mycontacts/view/CLLayoutManager.java:224-252 | Pruning an empty window resets the first position to 0. A non-empty window never becomes empty, and its first position never decreases. |
| LayoutWindow.PruneKeepsRetainedSpan | app/src/main/java/io/korok/mycontacts/view/CLLayoutManager.java:224-252 | Pruning keeps a slice of the old children. firstPosition advances by the number of children removed from the front. Every focused or in-bounds child is kept, and the kept run begins and ends with such children. When none qualifies, only child 0 stays. |
| LayoutWindow.WithFocusWellFormed | app/src/main/java/io/korok/mycontacts/view/CLLayoutManager.java:231 | Moving focus between children keeps the window well formed; positions and extents do not change. |
| LayoutWindow.PruneKeepsFocused | app/src/main/java/io/korok/mycontacts/view/CLLayoutManager.java:229-237 | Pruning never removes the focused child, however far outside the parent it lies. Its slot is inside the kept run, and the child there keeps its position and its focus. |
| LayoutWindow.PruneIsSlice | app/src/main/java/io/korok/mycontacts/view/CLLayoutManager.java:241-251 | Pruning a non-empty window keeps exactly the slots from `first` to `last`, which form a non-empty run. |
| LayoutWindow.PruneWellFormed | app/src/main/java/io/korok/mycontacts/view/CLLayoutManager.java:224-252 | Pruning keeps the window well formed. |
| LayoutWindow.ShiftWellFormed | app/src/main/java/io/korok/mycontacts/view/CLLayoutManager.java:173 | offsetChildrenHorizontal keeps positions, contiguity and widths. |
| LayoutWindow.ScrollClampBounds | app/src/main/java/io/korok/mycontacts/view/CLLayoutManager.java:141-160 | The consumed amount is 0 with no children. Otherwise it lies in [0, dx] for dx >= 0 and in [dx, 0] for dx <= 0. It is the whole dx unless the last item is attached (dx > 0) or position 0 is first (dx <= 0). |
| LayoutWindow.ScrollClampStopsAtTrailingCentre | app/src/main/java/io/korok/mycontacts/view/CLLayoutManager.java:150-154 | At the last item, a leftward move never takes the last child's centre past a midpoint it had not yet passed, and a shortened move stops exactly on it. The move is 0 iff the centre is at or left of the midpoint. |
| LayoutWindow.ScrollClampStopsAtLeadingCentre | app/src/main/java/io/korok/mycontacts/view/CLLayoutManager.java:155-159 | At position 0, the same holds for a rightward move and the first child's centre. |
| LayoutWindow.Fill | app/src/main/java/io/korok/mycontacts/view/CLLayoutManager.java:162-167 | The fill step of a scroll keeps the window well formed. |
| LayoutWindow.ScrollWellFormed | app/src/main/java/io/korok/mycontacts/view/CLLayoutManager.java:140-175 | A scroll keeps the window well formed. A window is non-empty after a scroll iff it was before. |
| LayoutWindow.ScrollShiftsByConsumed | app/src/main/java/io/korok/mycontacts/view/CLLayoutManager.java:170-174 | After a scroll, each remaining child is its filled and pruned self moved left by the returned amount, with position and focus unchanged. |
| LayoutWindow.ScrollLeavesTrailingGap | app/src/main/java/io/korok/mycontacts/view/CLLayoutManager.java:162-174 | Case: five 100-pixel items in a 300-pixel parent, after the first layout. A scroll of 150 fills item 3 at [400, 500] and consumes 150, but leaves a window ending at 250 without item 3. |
| LayoutWindow.ScrollPastLastItem | app/src/main/java/io/korok/mycontacts/view/CLLayoutManager.java:147-174 | Case: the same first layout, then a scroll of 1000. The last item is not attached before the scroll, so the whole 1000 is consumed. The fill attaches items 2 to 4, item 4 at [500, 600], and the window ends at [-900, -600], entirely left of the parent. |
| LayoutWindow.ShiftingFirstLeavesNoTrailingGap | app/src/main/java/io/korok/mycontacts/view/CLLayoutManager.java:169-173 | With the move done before the prune, a leftward scroll of an unfocused window that starts within the parent gives a well-formed, non-empty window. Whenever the moved filled children reach the right edge, that window reaches it too. |
| LayoutWindow.RelayoutPlacesWindow | app/src/main/java/io/korok/mycontacts/view/CLLayoutManager.java:92-126 | A layout pass attaches consecutive, measured, contiguous positions from firstPosition. The first starts at the old first child's left edge, or at (W - width(0)) / 2 when none is attached. Every child starts short of W and shows an existing item. The window is empty iff firstPosition is past the items or the start is at or beyond W. It stops only at W or at the last item. |
| LayoutWindow.RelayoutWellFormed | app/src/main/java/io/korok/mycontacts/view/CLLayoutManager.java:80-126 | Every onLayoutChildren pass keeps the window well formed. |
| LayoutWindow.RelayoutEmptyOrUnchanged | app/src/main/java/io/korok/mycontacts/view/CLLayoutManager.java:82-90 | With no items, every child is detached. A pre-layout pass, or one without a structural change, leaves the window unchanged. |
| LayoutWindow.InitialLayoutCentresFirstItem | app/src/main/java/io/korok/mycontacts/view/CLLayoutManager.java:97-106 | The first layout attaches item 0 at (W - w0) / 2, truncated toward zero. Its centre is within one pixel of the midpoint, whether item 0 is narrower or wider than the parent. |
| LayoutWindow.RelayoutIdempotent | app/src/main/java/io/korok/mycontacts/view/CLLayoutManager.java:92-126 | Laying out twice gives the same window as laying out once, unless the first pass detached every child. |
| LayoutWindow.SmoothScrollTarget | app/src/main/java/io/korok/mycontacts/view/CLLayoutManager.java:292-300 | smoothScrollToPosition starts a scroll iff 0 <= position < itemCount, and targets that position. |
| LayoutWindow.ScrollVectorHorizontal | app/src/main/java/io/korok/mycontacts/view/CLLayoutManager.java:264-282 | The scroll vector is never null and is horizontal. It points backward iff no child is attached or the target is before firstPosition, and forward otherwise. |
| LayoutWindow.TapRequestsTappedPosition | app/src/main/java/io/korok/mycontacts/view/CLLayoutManager.java:56-66 | A tap requests nothing or the tapped child's own position, never another. It requests nothing iff the child is the snap view and its centre is 4 or more pixels from the midpoint. A requested position always passes the smoothScrollToPosition guard. |
| LayoutWindow.DxToMakeCentralCentres | app/src/main/java/io/korok/mycontacts/view/CLLayoutManager.java:329-342 | Without left padding, moving a child by the computed amount puts its centre on the centre of the padded area. A child already there needs no move. |
| LayoutWindow.DxToMakeCentralIgnoresLeftPadding | app/src/main/java/io/korok/mycontacts/view/CLLayoutManager.java:337-341 | Case: paddings of 20 and a 300-pixel parent. The move computed for a child at [0, 100] is 80, which puts its centre at 130 instead of 150, the middle of the padded area. |
| LayoutWindow.DxToMakeCentralPaddedCentres | app/src/main/java/io/korok/mycontacts/view/CLLayoutManager.java:337-341 | The corrected move puts the child's centre on the middle of the padded area, which lies inside that area. It agrees with the computed move when there is no left padding. |
| CenterLockLayout.LayoutManager.constructor | app/src/main/java/io/korok/mycontacts/view/CLLayoutManager.java:26-32 | A new manager has firstPosition 0 and no children, a well-formed window. |
| CenterLockLayout.LayoutManager.OnLayoutChildren | app/src/main/java/io/korok/mycontacts/view/CLLayoutManager.java:79-127 | onLayoutChildren leaves exactly the window Relayout computes from the old one, and keeps it well formed. |
| CenterLockLayout.LayoutManager.LayOutFrom | app/src/main/java/io/korok/mycontacts/view/CLLayoutManager.java:113-126 | The layout loop detaches everything, then attaches the fill from firstPosition at `left` up to W. firstPosition is unchanged. |
| CenterLockLayout.LayoutManager.FillWhenScrollLeft | app/src/main/java/io/korok/mycontacts/view/CLLayoutManager.java:198-219 | The loop leaves the window FillTrailing computes, and keeps it well formed. |
| CenterLockLayout.LayoutManager.FillWhenScrollRight | app/src/main/java/io/korok/mycontacts/view/CLLayoutManager.java:177-196 | The loop leaves the window FillLeading computes, firstPosition included, and keeps it well formed. |
| CenterLockLayout.LayoutManager.ScanRetained | app/src/main/java/io/korok/mycontacts/view/CLLayoutManager.java:225-240 | The scan returns the slots of the first and last focused or in-bounds child, both 0 when there is none. Nothing changes. |
| CenterLockLayout.LayoutManager.RecycleViewsOutOfBounds | app/src/main/java/io/korok/mycontacts/view/CLLayoutManager.java:222-252 | recycleViewsOutOfBounds leaves the window Prune computes, and keeps it well formed. |
| CenterLockLayout.LayoutManager.SetFocus | app/src/main/java/io/korok/mycontacts/view/CLLayoutManager.java:231 | The host moves focus onto one child, or off every child. The window becomes WithFocus of the old one and stays well formed. |
| CenterLockLayout.LayoutManager.RemoveAfter | app/src/main/java/io/korok/mycontacts/view/CLLayoutManager.java:241-243 | Removing from the back keeps exactly the children up to slot `last`. |
| CenterLockLayout.LayoutManager.RemoveBefore | app/src/main/java/io/korok/mycontacts/view/CLLayoutManager.java:244-246 | Removing from slot first - 1 down to 0 keeps exactly the children from slot `first` on. |
| CenterLockLayout.LayoutManager.ClampedDelta | app/src/main/java/io/korok/mycontacts/view/CLLayoutManager.java:145-160 | The offset the children move by is the negated ScrollClamp of the current window. Nothing changes. |
| CenterLockLayout.LayoutManager.ScrollHorizontallyBy | app/src/main/java/io/korok/mycontacts/view/CLLayoutManager.java:139-175 | scrollHorizontallyBy returns ScrollClamp of the old window. It leaves the window Scroll computes (clamp, fill, prune, shift) and keeps it well formed. |
| SyncMediation.ProportionalTruncates | app/src/main/java/io/korok/mycontacts/view/CLSyncMediator.java:73-81 | The proportional offset is offset * to / from truncated toward zero, within one unit of the exact value. |
| SyncMediation.ProportionalWholeUnits | app/src/main/java/io/korok/mycontacts/view/CLSyncMediator.java:73-81 | Scrolling one view by k whole items asks the other view for exactly k of its own items, in either direction. |
| SyncMediation.HorizontalCorrection | app/src/main/java/io/korok/mycontacts/view/CLSyncMediator.java:68-83 | onHorizontalScroll issues nothing iff either view has no child. Otherwise it issues a vertical-only scroll after which v's offset is h's offset at the proportional position. |
| SyncMediation.VerticalCorrection | app/src/main/java/io/korok/mycontacts/view/CLSyncMediator.java:85-100 | The mirror image: a horizontal-only scroll after which h's offset is v's offset at the proportional position. |
| SyncMediation.HorizontalCorrectionSettles | app/src/main/java/io/korok/mycontacts/view/CLSyncMediator.java:73-82 | Once v has absorbed the correction, the same correction asks for a scroll of 0. |
| SyncMediation.VerticalCorrectionSettles | app/src/main/java/io/korok/mycontacts/view/CLSyncMediator.java:90-99 | Once h has absorbed the correction, the same correction asks for a scroll of 0. |
| SyncMediation.UngatedEchoDrifts | app/src/main/java/io/korok/mycontacts/view/CLSyncMediator.java:103-123 | Without the source gate, correcting an echo back would move h. A 1-pixel scroll of 3-pixel items asks 2-pixel items for 0, and correcting back asks h for -1. |
| SyncMediation.EventSource.constructor | app/src/main/java/io/korok/mycontacts/view/CLSyncMediator.java:132-137 | Neither view is the source before any touch. |
| SyncMediation.EventSource.InterceptOnRv1 | app/src/main/java/io/korok/mycontacts/view/CLSyncMediator.java:139-145 | A touch intercepted on rv1 makes rv1 the only source. |
| SyncMediation.EventSource.InterceptOnRv2 | app/src/main/java/io/korok/mycontacts/view/CLSyncMediator.java:157-163 | A touch intercepted on rv2 makes rv2 the only source. |
| SyncMediation.ScrollWatcher.constructor | app/src/main/java/io/korok/mycontacts/view/CLSyncMediator.java:192-198 | A watcher starts at offset 0 in both axes. |
| SyncMediation.ScrollWatcher.OnScrolled | app/src/main/java/io/korok/mycontacts/view/CLSyncMediator.java:200-204 | Every event adds its dx and dy, whatever their sign. |
| SyncMediation.SyncMediator.constructor | app/src/main/java/io/korok/mycontacts/view/CLSyncMediator.java:35-41 | A new mediator has fresh, distinct watchers at 0 and no source, and is not yet synced. |
| SyncMediation.SyncMediator.Couple | app/src/main/java/io/korok/mycontacts/view/CLSyncMediator.java:50-52 | The static sync builds a mediator and syncs it. |
| SyncMediation.SyncMediator.Sync | app/src/main/java/io/korok/mycontacts/view/CLSyncMediator.java:54-57 | sync registers the correcting listeners. |
| SyncMediation.SyncMediator.Unsync | app/src/main/java/io/korok/mycontacts/view/CLSyncMediator.java:59-62 | unsync removes them. The watchers are untouched. |
| SyncMediation.SyncMediator.TouchHorizontal | app/src/main/java/io/korok/mycontacts/view/CLSyncMediator.java:139-145 | A touch on h makes h the only source and keeps the flags exclusive. |
| SyncMediation.SyncMediator.TouchVertical | app/src/main/java/io/korok/mycontacts/view/CLSyncMediator.java:157-163 | A touch on v makes v the only source and keeps the flags exclusive. |
| SyncMediation.SyncMediator.OnHorizontalScrolled | app/src/main/java/io/korok/mycontacts/view/CLSyncMediator.java:103-112 | A scroll of h always updates h's watcher and never the source flags. It issues a correction only while synced and h is the source, and that correction is onHorizontalScroll's. |
| SyncMediation.SyncMediator.OnVerticalScrolled | app/src/main/java/io/korok/mycontacts/view/CLSyncMediator.java:114-123 | The same for v, with onVerticalScroll's correction. |
| SyncMediation.HorizontalGesture | app/src/main/java/io/korok/mycontacts/view/CLSyncMediator.java:103-123 | In a gesture started on h, a scroll of h asks v to follow vertically. v's own scroll for that request asks h for nothing, and leaves v's offset at h's proportional position. |
| ContactsRepo.DensitySuffix | app/src/main/java/io/korok/mycontacts/repos/ContactsRepo.java:72-82 | Every suffix the switch appends ends with ".png". |
| ContactsRepo.DensitySuffixByLevel | app/src/main/java/io/korok/mycontacts/repos/ContactsRepo.java:72-82 | "@3x.png" iff level 3, "@2x.png" iff level 2, ".png" iff any other level. |
| ContactsRepo.ImageByDensity | app/src/main/java/io/korok/mycontacts/repos/ContactsRepo.java:65-84 | The result is null iff the Context or the file is null. It fails iff the name is shorter than four characters. Otherwise it is the name without its last four characters followed by the level's suffix. |
| ContactsRepo.ImageEndsWithPng | app/src/main/java/io/korok/mycontacts/repos/ContactsRepo.java:71-83 | Every rewritten name ends with ".png". |
| ContactsRepo.PlainNameUnchanged | app/src/main/java/io/korok/mycontacts/repos/ContactsRepo.java:71-81 | At a level other than 2 and 3, a name ending in ".png" comes back unchanged. |
| ContactsRepo.ImageByDensityIdempotent | app/src/main/java/io/korok/mycontacts/repos/ContactsRepo.java:71-83 | At a level other than 2 and 3, rewriting a rewritten name changes nothing. |
| ContactsRepo.DoubleDensityNotIdempotent | app/src/main/java/io/korok/mycontacts/repos/ContactsRepo.java:71-78 | At level 2 the rewrite is not idempotent: "a.png" becomes "a@2x.png", then "a@2x@2x.png". |

## Left out

- The Android recycler is not modelled.
  - getViewForPosition, addView, measureChildWithMargins and layoutDecorated become "attach a child for position i at an extent measured by widths[i]".
  - removeAndRecycleViewAt and detachAndScrapAttachedViews become removals from `children`.
  - offsetChildrenHorizontal becomes `Shift`.
  - The scrap pool, layout params and view reuse are not modelled.
- The parent's width, the item count and the measured widths are fixed for each LayoutManager instance. A resize of the parent is not modelled. A data-set change between two layout passes is only the `structureChanged` flag.
- The child height is not modelled. Children always span [0, height], so only the horizontal half of inParentBound is kept.
- LinearSnapHelper.findSnapView is a library call. The snap view is an input to `TapRequest`.
- The SmoothScroller's timing (calculateSpeedPerPixel, calculateTimeForDeceleration, the interpolator in onTargetFound) is floating-point animation inside a library scroller.
- lockCenter, clickToCenter, generateDefaultLayoutParams and canScrollHorizontally/canScrollVertically are wiring or constants. Because canScrollHorizontally is always true, the early return of calculateDxToMakeCentral cannot happen and is not modelled.
- LayoutWindow.DxToMakeCentral: `(int)((right - left) / 2.0f)` and `(int)((end - start) / 2.f)` are modelled as truncating integer division. The two agree while the operands stay within float precision (below 2^24). The margins are folded into the `left` and `right` parameters.
- SyncMediation.HorizontalCorrection: the float ratio `(int)(offsetX / (float)width * height)` is modelled as the truncating integer division `JavaDiv(offsetX * height, width)`. Float rounding can differ by one for large or unlucky values. The function also requires a positive first-child width, because the float code divides by 0 there and produces NaN or infinity.
- SyncMediation.VerticalCorrection: the same abstraction, with the roles of width and height swapped. It requires a positive first-child height.
- Java's 32-bit `int` arithmetic is modelled as unbounded. The models do not wrap around in `offsetX += dx` (CLSyncMediator.java:202-203), in `offsetX * height` or in the extent sums of the layout loops.
- SyncMediation.SyncMediator.Sync: registration is a flag. Calling sync twice in the source registers each listener twice and issues every correction twice; calling unsync once then removes one copy. The model does not capture that.
- The two views are distinct values (`Horizontal`, `Vertical`). The model does not cover the source passing the same RecyclerView as both rv1 and rv2, where From would answer for the last touch on either.
- The order in which RecyclerView dispatches scroll listeners is host behaviour. The model assumes a view's watcher counts an event before its correcting listener runs, as the registration order in the constructor and in sync implies.
- A smoothScrollBy request is returned to the caller, not executed. The scroll events it causes are separate calls.
- ContactsRepo.getFakeData reads assets and parses JSON, and is not modelled. The density level (Math.round of the display density) is a parameter of `ImageByDensity`.
- CLItemClickListener (gesture detection), MainActivity (activity wiring, adapters, image loading) and Contact (a data holder) have no logic worth modelling.
- There is no concurrency: everything runs on the UI thread.
- LayoutWindow.Relayout: every child a layout pass attaches is unfocused. In the source, detachAndScrapAttachedViews keeps the views in the scrap, and a re-attached view keeps its focus. The same holds for CenterLockLayout.LayoutManager.OnLayoutChildren. Focus enters the model only through CenterLockLayout.LayoutManager.SetFocus, and a layout pass clears it.
- LayoutWindow.ScrollClamp: the midpoint stop holds only when the end item is attached before the scroll, because the clamp is decided before the fill. A request longer than the remaining content is consumed whole, and the window can end up entirely outside the parent (ScrollPastLastItem). The model keeps this behaviour and has no corrected clamp.
- ContactsRepo.ImageByDensity: lengths and suffixes count Unicode scalar values, while Java's length and substring count UTF-16 code units. For a name with characters outside the Basic Multilingual Plane, the "shorter than four" test and the cut before the extension can differ from the source's.
- LayoutWindow.ShiftingFirstLeavesNoTrailingGap: the corrected scroll is proved gap-free only for a window with no focused child that starts within the parent. A focused child far off-screen is kept by the prune and can still leave a gap.

## Findings

| source | as written | input that shows it | evidently intended | confidence | as-written member | corrected member |
|---|---|---|---|---|---|---|
| app/src/main/java/io/korok/mycontacts/view/CLLayoutManager.java:162-173 | scrollHorizontallyBy prunes the children out of bounds before moving them by the consumed amount, so the bounds test uses their pre-scroll positions. | Five 100-pixel items, a 300-pixel parent, the first layout (items 0 and 1 at [100, 200] and [200, 300]), then scrollHorizontallyBy(150). Item 3 is filled at [400, 500] and recycled at once. After the move the window ends at 250, so [250, 300] is empty although item 3 exists. | Test the bounds where the children end up, that is, prune after the move. The fill already reaches width + dx for that reason. | medium, not executed | LayoutWindow.ScrollLeavesTrailingGap | LayoutWindow.ShiftingFirstLeavesNoTrailingGap |
| app/src/main/java/io/korok/mycontacts/view/CLLayoutManager.java:337-341 | calculateDxToMakeCentral takes `(end - start) / 2` as the container centre. That value is measured from the left padding, but it is compared with a child centre in parent coordinates. | Paddings of 20 in a 300-pixel parent and a child at [0, 100]. The move is 80, which puts the child's centre at 130, while the padded area [20, 280] has its middle at 150. | Use `start + (end - start) / 2` as the container centre. | medium, not executed | LayoutWindow.DxToMakeCentralIgnoresLeftPadding | LayoutWindow.DxToMakeCentralPaddedCentres |

`CenterLockLayout.LayoutManager.ScrollHorizontallyBy` keeps the source's order, because it models the code as written. The corrected order is the function `LayoutWindow.ScrollShiftingFirst`. Likewise, the corrected centring move is `LayoutWindow.DxToMakeCentralPadded`.

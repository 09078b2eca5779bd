# FlowLayout in Dafny

A model of the Android FlowLayout library: `FlowLayout`, a view group that
packs its adapter's children left to right into rows and scrolls
vertically; its older variant `PullFlowLayout`; the two adapters of the demo
app; and its `StringUtils`/`ListUtils` helpers.

- `java_int.dfy` (`JavaInt`): Java `int` helpers. These are
  `Integer.MAX_VALUE`, `Math.min`/`max`/`abs`, and `/`, which truncates
  toward zero.
- `flow_measure.dfy` (`FlowMeasure`): the row packer of
  `FlowLayout.onMeasure` as a pure left fold (`Step`, `PackUpTo`, `Pack`).
  Its lemmas cover the row limit, which children are placed, row numbers,
  the truncation tail and row geometry.
- `flow_gravity.dfy` (`FlowGravity`): the horizontal gravity offsets of
  `onLayout` and what each gravity does to a packed row.
- `flow_scroll.dfy` (`FlowScroll`): the scroll decisions. These cover
  `scrollToTop/Bottom/Position/RowNumber`, the drag step with snapping, the
  fling trigger and the intercept rule.
- `flow_config.dfy` (`FlowConfig`): the short-circuit rules of
  `setMaxRowCount`, and why the "all children shown" shortcut is sound.
- `flow_layout.dfy` (`FlowLayoutView.FlowLayout`): the view as a class whose
  fields are the Java fields. `Measure` runs the Java measure loop and is
  proved to compute `Pack`. `Layout` runs the layout loops and is proved to
  compute `LayoutAll`. The setters, the scroll API, `TouchEvent` and
  `ComputeScroll` are proved to apply the `FlowScroll`/`FlowConfig`
  decisions to the fields.
- `pull_flow.dfy` (`PullFlow`): the packer and drag clamp of
  `PullFlowLayout`, as pure functions with lemmas, and the class that runs
  them.
- `main_adapters.dfy` (`MainAdapters`): `MainFlowLayoutAdapter` and
  `MainPullFlowLayoutAdapter` as classes over a nullable list and a count
  of `notifyChange()` calls.
- `app_utils.dfy` (`AppUtils`): `StringUtils` and `ListUtils`.

Inputs from the platform are plain parameters:

- each child's measured size, margins and GONE flag;
- the measure spec's size and whether it is EXACTLY;
- the touch action and its `y`;
- the release velocity;
- the Scroller's `currY` on each frame, and whether that frame ends the animation.

A null Java reference is `None`.

Behaviour kept as the code has it:

- The wrap test does not ask whether the row is empty, so an oversized
  first child closes an empty row 1 (`OversizedFirstChild`).
- A closed row's height already counts the child that wrapped.
- The running row height of row 1 starts at 0, so row 1 is never lower
  than 0 even when every child in it has a negative full height.
- After truncation the row list ends with a childless, 0-high row. That row
  repeats the last row number and records as its used width the width of
  the child that was cut off (`PackTruncationTail`).
- `mMaxScrollY` is negative when the content is shorter than the view.
  Touch is then ignored (`TouchEvent` ensures `Consumed ==> maxScrollY > 0`).
- `mChildViewAllShow` compares with the adapter count, GONE children
  included (`AllShowMeaning`).
- The early return of `onMeasure` (no adapter, or row limit 0) leaves the
  content sizes, `mViewReallyHeight` and `mMaxScrollY` of the previous pass
  in place.
- `setMaxRowCount(v)` with a negative `v` stores `Integer.MAX_VALUE`, so
  repeating the call relayouts again unless every child is shown
  (`RepeatedMaxRowCount`).
- In `PullFlowLayout`, the running row width starts at the left padding but
  is compared with a width that excludes both paddings.
- Also in `PullFlowLayout`, the row height restarts at 0 after a wrap, so the
  child that opened a row does not count toward its height
  (`WrapForgetsOpener`).
- Its drag clamp subtracts the bottom padding, so with a bottom padding
  larger than the scroll range a drag can scroll above the top
  (`PullDragCanLeaveRange`). `PullDragStaysInRange` gives the condition
  under which it stays in range.
- Nothing in `PullFlowLayout` starts its Scroller. `PullFlowLayout.Valid`
  says so, and `ComputeScroll` is modelled for a running Scroller anyway.

## Model

| member | source | states |
|---|---|---|
| JavaInt.JavaDiv | flowlayout/src/main/java/com/renj/flowlayout/FlowLayout.java:449-457 | Java's `/` for a positive divisor: the quotient is the floor for a non-negative numerator and the ceiling for a negative one, i.e. rounded toward zero |
| JavaInt.JavaDivSign | flowlayout/src/main/java/com/renj/flowlayout/FlowLayout.java:449-457 | the truncated quotient has the sign of the numerator |
| JavaInt.JavaDivScaled | flowlayout/src/main/java/com/renj/flowlayout/FlowLayout.java:449-462 | `(slack / (n-1)) * i` for `0 <= i <= n-1` lies between 0 and `slack` |
| FlowMeasure.Visible | flowlayout/src/main/java/com/renj/flowlayout/FlowLayout.java:340-344 | the positions of the non-GONE children, strictly increasing, each in range and every non-GONE position included |
| FlowMeasure.VisibleCount | flowlayout/src/main/java/com/renj/flowlayout/FlowLayout.java:340-344 | at most n of the first n children are visible, and exactly n iff none of them is GONE |
| FlowMeasure.PackState | flowlayout/src/main/java/com/renj/flowlayout/FlowLayout.java:340-413 | the state `PackUpTo` reaches after the last child (each child one `Step`) satisfies the loop invariant, the row list of `Pack` is its closed rows plus the open row, and truncation happened iff the loop broke out |
| FlowMeasure.PackRowLimit | flowlayout/src/main/java/com/renj/flowlayout/FlowLayout.java:384-393 | `mTotalShowRowCount` is between 1 and max(1, `mMaxRowCount`), and equals that limit when children were cut off |
| FlowMeasure.PackRowNumbers | flowlayout/src/main/java/com/renj/flowlayout/FlowLayout.java:372-386 | rows are numbered 1, 2, … in order, the last row carries `mTotalShowRowCount`, the list has one extra row after truncation, and every child carries its row's number |
| FlowMeasure.PackPlacesVisibleInOrder | flowlayout/src/main/java/com/renj/flowlayout/FlowLayout.java:340-404 | the placed children are the visible ones in index order up to the first one cut off, `mShowChildViewCount` counts them, and without truncation every non-GONE child is placed |
| FlowMeasure.PackTruncationTail | flowlayout/src/main/java/com/renj/flowlayout/FlowLayout.java:388-413 | after truncation the last row is empty, 0 high, repeats the previous row number (= `mTotalShowRowCount`) and has the cut-off child's full width as used width; the row before it was closed by that child: the child did not fit after it, and the row is as tall as the tallest of its children and that child |
| FlowMeasure.PackGeometry | flowlayout/src/main/java/com/renj/flowlayout/FlowLayout.java:364-413 | the children of row k have their measured size, sit side by side from the left padding, `topMargin` below the row top (top padding plus the rows above); every child after the first of a row, and the first child of row 1, ends within the content width; used width is the children's span (except on a truncation tail); first fit: row k is followed by a row whose first child does not fit after row k's used width, and row k is exactly as tall as the tallest of its own children and that child (and of 0, in row 1); every empty row after row 1 is the truncation tail (row 1 itself is empty, and followed by a non-empty row, when the first visible child alone is wider than the content); the last row is exactly as tall as its tallest child (or 0 in row 1); the height is top padding plus all row heights |
| FlowMeasure.StoppedStays | flowlayout/src/main/java/com/renj/flowlayout/FlowLayout.java:388-393 | once the loop has broken out, later children change nothing |
| FlowMeasure.UnreachedLimit | flowlayout/src/main/java/com/renj/flowlayout/FlowLayout.java:386-388 | a row limit the running row count has not reached does not affect the loop state |
| FlowMeasure.LargeLimitIsNoOp | flowlayout/src/main/java/com/renj/flowlayout/FlowLayout.java:386-393 | any limit at least the rows an untruncated pass uses gives the same pass as that pass (`Integer.MAX_VALUE` included) |
| FlowMeasure.ClosedRowsStay | flowlayout/src/main/java/com/renj/flowlayout/FlowLayout.java:368-377 | later iterations only append rows: closed rows never change |
| FlowMeasure.OversizedFirstChild | flowlayout/src/main/java/com/renj/flowlayout/FlowLayout.java:364-377 | a visible first child wider than the content closes an empty row 1 of width 0 and the child's full height |
| FlowGravity.ChildOffset | flowlayout/src/main/java/com/renj/flowlayout/FlowLayout.java:441-465 | RIGHT shifts by the slack; CENTER by half the slack rounded toward zero, within one pixel of half the slack; LEFT_RIGHT by i times the slack divided (toward zero) by n - 1, 0 for the first child or a single child, between 0 and the slack, and the last child at most n - 2 short of the slack; any other gravity by 0 |
| FlowGravity.LeftRightEqualGaps | flowlayout/src/main/java/com/renj/flowlayout/FlowLayout.java:447-462 | under LEFT_RIGHT consecutive children are shifted by equal steps |
| FlowGravity.LeftRightExamples | flowlayout/src/main/java/com/renj/flowlayout/FlowLayout.java:447-462 | worked offsets for a slack of 10 with two and three children |
| FlowGravity.CenterRoundsTowardZero | flowlayout/src/main/java/com/renj/flowlayout/FlowLayout.java:453-456 | a row 5 pixels too wide is shifted by -2 under CENTER |
| FlowGravity.LayoutRow | flowlayout/src/main/java/com/renj/flowlayout/FlowLayout.java:460-467 | each child of a row keeps its row, position and vertical extent, and both its edges move right by its gravity offset |
| FlowGravity.LayoutAll | flowlayout/src/main/java/com/renj/flowlayout/FlowLayout.java:442-470 | layout keeps exactly the placed children in order, each with its row, position, width and vertical extent |
| FlowGravity.RowOffsetShiftsChild | flowlayout/src/main/java/com/renj/flowlayout/FlowLayout.java:442-467 | the shift onLayout applies from the row's `offsetX` (`offsetX * i` under LEFT_RIGHT, `offsetX` otherwise) is the child's gravity offset |
| FlowGravity.LayoutAllKeepsTargets | flowlayout/src/main/java/com/renj/flowlayout/FlowLayout.java:625-637 | a click on each laid-out child reports the (row number, position) the measure pass recorded for it |
| FlowGravity.RightGravityReachesRightEdge | flowlayout/src/main/java/com/renj/flowlayout/FlowLayout.java:444-446 | under RIGHT the last child of a packed row ends, right margin included, at the right edge of the content area |
| FlowGravity.CenterGravityBalancesRow | flowlayout/src/main/java/com/renj/flowlayout/FlowLayout.java:453-456 | under CENTER the free space left and right of a packed row differ by at most one pixel |
| FlowGravity.LeftRightGravityJustifiesRow | flowlayout/src/main/java/com/renj/flowlayout/FlowLayout.java:447-452 | under LEFT_RIGHT the first child stays put and the last ends at most n - 2 pixels short of the right edge |
| FlowConfig.StoredMaxRowCount | flowlayout/src/main/java/com/renj/flowlayout/FlowLayout.java:159-162 | a non-negative request is stored as is, a negative one as `Integer.MAX_VALUE` |
| FlowConfig.RepeatedMaxRowCount | flowlayout/src/main/java/com/renj/flowlayout/FlowLayout.java:151-162 | repeating an effective `setMaxRowCount(v)` is ignored iff v >= 0 or every child is shown |
| FlowConfig.AllShowMeaning | flowlayout/src/main/java/com/renj/flowlayout/FlowLayout.java:433 | item count == shown count iff nothing was cut off and no child is GONE |
| FlowConfig.AllShowSkipIsSound | flowlayout/src/main/java/com/renj/flowlayout/FlowLayout.java:154 | when every child is shown, a limit above the rows in use measures the same rows, so skipping the relayout loses nothing |
| FlowScroll.SmoothDuration | flowlayout/src/main/java/com/renj/flowlayout/FlowLayout.java:269 | the smooth-scroll duration is \|dy\| clamped to [300, 600] |
| FlowScroll.TopEffect | flowlayout/src/main/java/com/renj/flowlayout/FlowLayout.java:190-199 | scrollToTop acts iff scrolled down, ends at 0, animates from the current offset only when asked to |
| FlowScroll.BottomEffect | flowlayout/src/main/java/com/renj/flowlayout/FlowLayout.java:206-215 | scrollToBottom acts iff above `mMaxScrollY` and ends there |
| FlowScroll.PositionEffect | flowlayout/src/main/java/com/renj/flowlayout/FlowLayout.java:223-236 | scrollToPosition does nothing iff the position is <= 0 and the offset is already <= 0, or the position is >= `mMaxScrollY` (and > 0) and the offset is already >= `mMaxScrollY`; otherwise it ends at the position clamped to [0, `mMaxScrollY`], even when that is the current offset |
| FlowScroll.ScrollEffectsStayInRange | flowlayout/src/main/java/com/renj/flowlayout/FlowLayout.java:190-236 | from an offset in [0, `mMaxScrollY`] every programmatic scroll ends in that range |
| FlowScroll.FirstWithNumber | flowlayout/src/main/java/com/renj/flowlayout/FlowLayout.java:252-256 | the index of the first row with the given number, or the row count when there is none |
| FlowScroll.RowScrollTargetOfPack | flowlayout/src/main/java/com/renj/flowlayout/FlowLayout.java:244-260 | on a measured row list, scrollToRowNumber(n) with 0 < n < total rows targets the height of rows 1..n |
| FlowScroll.DragStep | flowlayout/src/main/java/com/renj/flowlayout/FlowLayout.java:515-536 | a drag step is passed on at the edge it pushes against, snaps to 0 or `mMaxScrollY` when it would overshoot, and otherwise moves by the full step |
| FlowScroll.DragStaysInRange | flowlayout/src/main/java/com/renj/flowlayout/FlowLayout.java:515-536 | a drag step from an offset in [0, `mMaxScrollY`] stays in that range |
| FlowScroll.FlingVelocity | flowlayout/src/main/java/com/renj/flowlayout/FlowLayout.java:541-546 | a release flings iff \|velocity\| > 200, with the velocity negated |
| FlowScroll.Intercepts | flowlayout/src/main/java/com/renj/flowlayout/FlowLayout.java:476-488 | only MOVE is intercepted; DOWN and UP reach the children |
| FlowLayoutView.FlowLayout.constructor | flowlayout/src/main/java/com/renj/flowlayout/FlowLayout.java:89-97 | a new view holds the configured row limit and gravity, no rows, offset 0, all-shown true |
| FlowLayoutView.FlowLayout.Measure | flowlayout/src/main/java/com/renj/flowlayout/FlowLayout.java:302-429 | onMeasure: rows and counts are `Pack` of the children; content sizes, real height, measured height and `mMaxScrollY` as computed; without adapter or with limit 0 the rows are cleared and the other sizes stay stale |
| FlowLayoutView.FlowLayout.MeasureRows | flowlayout/src/main/java/com/renj/flowlayout/FlowLayout.java:327-413 | the child loop, including its `break`, and the final row leave the row list and counts equal to `Pack` and return its height |
| FlowLayoutView.FlowLayout.Layout | flowlayout/src/main/java/com/renj/flowlayout/FlowLayout.java:432-473 | onLayout: all-shown is item count == shown count; the bounds are `LayoutAll` of the rows; click targets are their (row, position); the finish listener hears the shown count |
| FlowLayoutView.FlowLayout.LayoutRowChildren | flowlayout/src/main/java/com/renj/flowlayout/FlowLayout.java:460-467 | the inner loop lays out one row exactly as `LayoutRow` does |
| FlowLayoutView.FlowLayout.SetMaxRowCount | flowlayout/src/main/java/com/renj/flowlayout/FlowLayout.java:151-168 | ignored under the four short-circuit rules; otherwise stores the value, scrolls back to the top and requests a relayout |
| FlowLayoutView.FlowLayout.SetHorizontalGravity | flowlayout/src/main/java/com/renj/flowlayout/FlowLayout.java:178-183 | stores the gravity and requests a relayout only on a change |
| FlowLayoutView.FlowLayout.SmallScrollToPosition | flowlayout/src/main/java/com/renj/flowlayout/FlowLayout.java:268-271 | starts a smooth scroll with the clamped duration |
| FlowLayoutView.FlowLayout.ScrollToTop | flowlayout/src/main/java/com/renj/flowlayout/FlowLayout.java:190-199 | applies `TopEffect` to the offset and Scroller |
| FlowLayoutView.FlowLayout.ScrollToBottom | flowlayout/src/main/java/com/renj/flowlayout/FlowLayout.java:206-215 | applies `BottomEffect` |
| FlowLayoutView.FlowLayout.ScrollToPosition | flowlayout/src/main/java/com/renj/flowlayout/FlowLayout.java:223-236 | applies `PositionEffect` |
| FlowLayoutView.FlowLayout.RowPosition | flowlayout/src/main/java/com/renj/flowlayout/FlowLayout.java:250-257 | the loop returns the heights up to and including the first row with the number |
| FlowLayoutView.FlowLayout.ScrollToRowNumber | flowlayout/src/main/java/com/renj/flowlayout/FlowLayout.java:244-260 | to the top for n <= 0, to the bottom for n >= total rows, otherwise to the row's scroll target |
| FlowLayoutView.FlowLayout.TouchEvent | flowlayout/src/main/java/com/renj/flowlayout/FlowLayout.java:494-560 | handled only when the content is taller than the view; the first MOVE records the anchor; later MOVEs apply `DragStep` and advance the anchor only on a full step; UP clears the anchor and flings by `FlingVelocity`; the offset stays in [0, `mMaxScrollY`] |
| FlowLayoutView.FlowLayout.ComputeScroll | flowlayout/src/main/java/com/renj/flowlayout/FlowLayout.java:563-575 | while animating, the offset becomes min(currY, `mMaxScrollY`), and the animation stops when it ends or had to be clamped |
| PullFlow.PullUpToInv | pullflowlayout/src/main/java/com/renj/flowlayout/PullFlowLayout.java:98-138 | the packer's loop invariant (`PullUpTo`, one `PullStep` per child) holds after every iteration |
| PullFlow.PullPlacesAll | pullflowlayout/src/main/java/com/renj/flowlayout/PullFlowLayout.java:86-138 | every child is placed with its measured size; row numbers start at 1 or 2, grow by 0 or 1 per child, and end at the row count |
| PullFlow.PullGeometry | pullflowlayout/src/main/java/com/renj/flowlayout/PullFlowLayout.java:90-137 | child 0 starts at the left padding and opens row 2 iff left padding plus its full width exceeds the content width (row top then lowered by max(its full height, 0)); child j goes to the next row iff its full width does not fit after child j - 1's end; in the same row it abuts child j - 1 under the same row top, ending within the content width; in the next row it starts at the left padding and the row top is lower by exactly the largest of 0, its own full height and the full heights of the children of the row it left, the child that opened that row excluded |
| PullFlow.PullTotalHeight | pullflowlayout/src/main/java/com/renj/flowlayout/PullFlowLayout.java:139-142 | the reported height (`PullHeight`) is the last row's top plus, when the running width is not 0, the largest of 0 and the full heights of that row's children other than its opener, and the last row's top alone otherwise |
| PullFlow.PullPrefix | pullflowlayout/src/main/java/com/renj/flowlayout/PullFlowLayout.java:98-138 | later iterations only append placements |
| PullFlow.WrapForgetsOpener | pullflowlayout/src/main/java/com/renj/flowlayout/PullFlowLayout.java:121-127 | when two children in a row both wrap, the second row top lies only the second child's full height lower |
| PullFlow.PullDragDy | pullflowlayout/src/main/java/com/renj/flowlayout/PullFlowLayout.java:181-190 | an upward step stops at 0; a downward step past the content's end lands at reallyHeight - contentHeight - paddingBottom |
| PullFlow.PullDragStaysInRange | pullflowlayout/src/main/java/com/renj/flowlayout/PullFlowLayout.java:181-195 | with a bottom padding within the scroll range, a drag from inside [0, reallyHeight - contentHeight] stays inside |
| PullFlow.PullDragCanLeaveRange | pullflowlayout/src/main/java/com/renj/flowlayout/PullFlowLayout.java:187-189 | with a larger bottom padding a downward drag at offset 0 goes to -9 |
| PullFlow.PullFlowLayout.constructor | pullflowlayout/src/main/java/com/renj/flowlayout/PullFlowLayout.java:28-56 | a new view has no children, no rows and offset 0 |
| PullFlow.PullFlowLayout.Measure | pullflowlayout/src/main/java/com/renj/flowlayout/PullFlowLayout.java:71-156 | onMeasure: placements and row count are `PullUpTo` of the children; real height adds the last row only when its width is non-zero; no adapter changes nothing |
| PullFlow.PullFlowLayout.TouchEvent | pullflowlayout/src/main/java/com/renj/flowlayout/PullFlowLayout.java:170-211 | handled only when the content is taller than the view; DOWN records y; MOVE scrolls by `PullDragDy` and records y; UP changes nothing |
| PullFlow.PullFlowLayout.ComputeScroll | pullflowlayout/src/main/java/com/renj/flowlayout/PullFlowLayout.java:214-220 | while animating, the offset follows the Scroller unclamped |
| AppUtils.StringIsEmpty | app/src/main/java/com/renj/flowtest/utils/StringUtils.java:17-22 | null, "" and "null" are empty, every other string is not |
| AppUtils.StringIsNotEmpty | app/src/main/java/com/renj/flowtest/utils/StringUtils.java:24-26 | the negation of `StringIsEmpty` |
| AppUtils.ListIsEmpty | app/src/main/java/com/renj/flowtest/utils/ListUtils.java:19-21 | null and the empty list are empty, a non-empty list is not |
| AppUtils.ListNotEmpty | app/src/main/java/com/renj/flowtest/utils/ListUtils.java:23-25 | the negation of `ListIsEmpty` |
| MainAdapters.MainFlowLayoutAdapter.constructor | app/src/main/java/com/renj/flowtest/MainFlowLayoutAdapter.java:29-34 | holds the given list, nothing checked |
| MainAdapters.MainFlowLayoutAdapter.SetCheckedPosition | app/src/main/java/com/renj/flowtest/MainFlowLayoutAdapter.java:36-43 | toggles the checked position; afterwards exactly that position is highlighted (none after unchecking); always notifies |
| MainAdapters.MainFlowLayoutAdapter.SetNewData | app/src/main/java/com/renj/flowtest/MainFlowLayoutAdapter.java:45-55 | null changes nothing; otherwise the data become the given elements in order and the layout is notified |
| MainAdapters.MainFlowLayoutAdapter.AddData | app/src/main/java/com/renj/flowtest/MainFlowLayoutAdapter.java:57-62 | appends and notifies only when both lists exist |
| MainAdapters.MainFlowLayoutAdapter.ItemCount | app/src/main/java/com/renj/flowtest/MainFlowLayoutAdapter.java:86-88 | 0 for a null list, else its size |
| MainAdapters.MainFlowLayoutAdapter.OneHighlighted | app/src/main/java/com/renj/flowtest/MainFlowLayoutAdapter.java:69-75 | createView highlights at most one item, and none while nothing is checked |
| MainAdapters.MainFlowLayoutAdapter.GetItem | app/src/main/java/com/renj/flowtest/MainFlowLayoutAdapter.java:91-94 | null for a null or empty list, the element when in range, otherwise an index-out-of-bounds failure |
| MainAdapters.MainPullFlowLayoutAdapter.constructor | app/src/main/java/com/renj/flowtest/MainPullFlowLayoutAdapter.java:29-31 | holds the given list |
| MainAdapters.MainPullFlowLayoutAdapter.AddData | app/src/main/java/com/renj/flowtest/MainPullFlowLayoutAdapter.java:33-38 | appends and notifies only when both lists exist |
| MainAdapters.MainPullFlowLayoutAdapter.ViewCount | app/src/main/java/com/renj/flowtest/MainPullFlowLayoutAdapter.java:62-64 | 0 for a null list, else its size |
| MainAdapters.MainPullFlowLayoutAdapter.IsHighlighted | app/src/main/java/com/renj/flowtest/MainPullFlowLayoutAdapter.java:45-51 | exactly the multiples of 4 get the highlighted style |

## Left out

- Android view plumbing is not modelled: `removeAllViews`/`addView`, `measureChild`, MeasureSpec encoding, `setMeasuredDimension`, the layout-params factories, and loading the attributes from XML. Children's measured sizes, margins and visibility are inputs, as are the size values and the EXACTLY flag. The platform's own measurement in `PullFlowLayout.onMeasure` without an adapter is not modelled either.
- `PullFlowLayout` does not clear its child views before each measure pass, and `onLayout` places the recorded rectangles. Views are not modelled, so neither is.
- VelocityTracker estimation and the Scroller's fling and interpolation physics, including the fling bounds 0..10000, are not modelled. The release velocity and each frame's `currY` and end are inputs.
- `postInvalidate` is not modelled. `requestLayout()` and `notifyChange()` are counted, not performed.
- Listener objects are recorded, not called. A click listener is the (row number, position) it reports, and the finish listener is the list of counts it was given.
- `super.onTouchEvent` is the `Delegated` result; what the platform does with the event is not modelled.
- Java `int` overflow is not modelled; all arithmetic is on unbounded integers.
- The TextView styling and `dip2px` of the adapters' `createView` are left out; only the highlight decision is kept. So are the `Log.i` calls.
- `FlowLayoutView.FlowLayout.constructor`: requires non-negative top and bottom padding, although Android accepts negative ones. Before the first measure pass, a negative sum would let `TouchEvent` consume events while `mMaxScrollY` is 0, which `TouchEvent`'s `Consumed ==> maxScrollY > 0` does not admit. Left and right padding may be any value.
- `MainAdapters.MainFlowLayoutAdapter.SetNewData`: lists are values, so passing the adapter its own list (which Java clears before copying, ending empty) is not modelled.
- `setAdapter` (store, link back, request a relayout) is not a member. The adapter's children, or their absence, are a parameter of each measure and layout pass instead.
- The getters (`getShowRowCount`, `isChildViewAllShow`, `getTotalRowCount`, `getFlowLayoutAdapter`), the listener setters and the abstract adapter base classes only store or return fields. They are not members.
- Listeners are assumed to be registered: every layout pass records its finish count, and every child records its click target.
- DataUtils, RandomUtils, ToastUtils, MyApplication and MainActivity are not part of this model.

/**
 * The FlowLayout view as an object: its fields are the ones the Java class
 * keeps between calls, and each method does what the corresponding Android
 * callback or public method does to them. The measure loop is proved to
 * compute `Pack`, the layout loops `LayoutAll`, and the scroll and touch
 * methods apply the decisions of `FlowScroll` and `FlowConfig`.
 *
 * Child views are replaced by their measured `Child` records; a view's
 * final bounds are recorded in `laidOut`, its click listener as the
 * (rowNumber, position) pair it would report, a call of the finish
 * listener as the shown count it passes, and each requestLayout() as one
 * more pending relayout request.
 */
module FlowLayoutView {
  import opened JavaInt
  import opened FlowMeasure
  import opened FlowGravity
  import opened FlowScroll
  import opened FlowConfig

  class FlowLayout {
    const paddingLeft: int
    const paddingTop: int
    const paddingRight: int
    const paddingBottom: int

    var rowList: seq<Row>               // mRowChildViewList
    var showChildViewCount: int         // mShowChildViewCount
    var totalShowRowCount: int          // mTotalShowRowCount
    var childViewAllShow: bool          // mChildViewAllShow
    var maxRowCount: int                // mMaxRowCount
    var horizontalGravity: int          // mHorizontalGravity
    var maxScrollY: int                 // mMaxScrollY
    var viewReallyHeight: int           // mViewReallyHeight
    var viewContentWidth: int           // mViewContentWidth
    var viewContentHeight: int          // mViewContentHeight
    var measuredHeight: int             // the height given to setMeasuredDimension
    var isActionDown: bool
    var touchEventLastY: int            // mTouchEventLastY
    var scrollY: int                    // getScrollY()
    var scroller: Animation             // mScroller
    var laidOut: seq<Placed>            // bounds of the attached child views
    var clickTargets: seq<(int, int)>   // what each child's click listener reports
    var finishedCounts: seq<int>        // every onLayoutFinish call, by shown count
    var relayoutRequests: nat           // requestLayout() calls not yet served

    /**
     * The top and bottom paddings are never negative, and mMaxScrollY is
     * the scroll range of the last completed measure pass (it and both
     * heights are still 0 before one).
     */
    predicate Valid()
      reads this
    {
      && 0 <= paddingTop && 0 <= paddingBottom
      && (maxScrollY == viewReallyHeight - viewContentHeight - paddingBottom - paddingTop
          || (viewReallyHeight == 0 && viewContentHeight == 0 && maxScrollY == 0))
    }

    /** A new view; `maxRowCount` and `gravity` come from its XML attributes. */
    constructor (pl: int, pt: int, pr: int, pb: int, maxRowCount: int, gravity: int)
      requires 0 <= pt && 0 <= pb
      ensures Valid()
      ensures paddingLeft == pl && paddingTop == pt && paddingRight == pr && paddingBottom == pb
      ensures this.maxRowCount == maxRowCount && horizontalGravity == gravity
      ensures childViewAllShow && rowList == [] && showChildViewCount == 0 && totalShowRowCount == 0
      ensures maxScrollY == 0 && viewReallyHeight == 0 && viewContentWidth == 0 && viewContentHeight == 0
      ensures scrollY == 0 && scroller == Idle && !isActionDown && touchEventLastY == 0
      ensures laidOut == [] && clickTargets == [] && finishedCounts == [] && relayoutRequests == 0
    {
      paddingLeft, paddingTop, paddingRight, paddingBottom := pl, pt, pr, pb;
      this.maxRowCount := maxRowCount;
      horizontalGravity := gravity;
      childViewAllShow := true;
      rowList := [];
      showChildViewCount, totalShowRowCount := 0, 0;
      maxScrollY, viewReallyHeight, viewContentWidth, viewContentHeight, measuredHeight := 0, 0, 0, 0, 0;
      isActionDown, touchEventLastY := false, 0;
      scrollY, scroller := 0, Idle;
      laidOut, clickTargets, finishedCounts := [], [], [];
      relayoutRequests := 0;
    }

    /**
     * onMeasure. `adapter` is None when no adapter is set, otherwise the
     * measured children it creates, in adapter order.
     */
    method Measure(adapter: Option<seq<Child>>, widthSize: int, heightSize: int, exactly: bool)
      requires Valid()
      modifies this`rowList, this`showChildViewCount, this`totalShowRowCount, this`laidOut, this`clickTargets
      modifies this`viewContentWidth, this`viewContentHeight, this`viewReallyHeight, this`maxScrollY, this`measuredHeight
      ensures Valid()
      ensures laidOut == [] && clickTargets == []
      ensures adapter.None? || maxRowCount == 0 ==>
        && rowList == [] && showChildViewCount == 0 && totalShowRowCount == 0
        && measuredHeight == (if exactly then heightSize else paddingTop + paddingBottom)
        && viewContentWidth == old(viewContentWidth) && viewContentHeight == old(viewContentHeight)
        && viewReallyHeight == old(viewReallyHeight) && maxScrollY == old(maxScrollY)
      ensures adapter.Some? && maxRowCount != 0 ==>
        var m := Pack(Frame(widthSize - paddingLeft - paddingRight, paddingLeft, paddingTop, maxRowCount), adapter.value);
        && rowList == m.rows && showChildViewCount == m.shown && totalShowRowCount == m.totalRows
        && viewContentWidth == widthSize - paddingLeft - paddingRight
        && viewContentHeight == heightSize - paddingTop - paddingBottom
        && viewReallyHeight == m.reallyHeight + paddingBottom
        && maxScrollY == viewReallyHeight - viewContentHeight - paddingBottom - paddingTop
        && measuredHeight == (if exactly then heightSize else viewReallyHeight)
    {
      rowList := [];
      showChildViewCount := 0;
      totalShowRowCount := 0;
      laidOut, clickTargets := [], [];
      if adapter.None? || maxRowCount == 0 {
        measuredHeight := if exactly then heightSize else paddingTop + paddingBottom;
        return;
      }
      viewContentWidth := widthSize - paddingLeft - paddingRight;
      viewContentHeight := heightSize - paddingTop - paddingBottom;
      var reallyHeight := paddingTop;
      var cs := adapter.value;
      if |cs| > 0 {
        reallyHeight := MeasureRows(cs);
      }
      reallyHeight := reallyHeight + paddingBottom;
      viewReallyHeight := reallyHeight;
      measuredHeight := if exactly then heightSize else reallyHeight;
      maxScrollY := viewReallyHeight - viewContentHeight - paddingBottom - paddingTop;
    }

    /**
     * The child loop of onMeasure with the last row appended: fills the row
     * list and the counts from the content width and row limit already in
     * place, and returns the height of the rows plus the top padding.
     */
    method MeasureRows(cs: seq<Child>) returns (reallyHeight: int)
      requires |cs| > 0 && rowList == []
      modifies this`rowList, this`showChildViewCount, this`totalShowRowCount
      ensures var m := Pack(Frame(viewContentWidth, paddingLeft, paddingTop, maxRowCount), cs);
        && rowList == m.rows && showChildViewCount == m.shown && totalShowRowCount == m.totalRows
        && reallyHeight == m.reallyHeight
    {
      reallyHeight := paddingTop;
      ghost var f := Frame(viewContentWidth, paddingLeft, paddingTop, maxRowCount);
      var currentRowWidth := 0;
      var currentRowMaxHeight := 0;
      totalShowRowCount := 1;
      showChildViewCount := 0;
      var childList: seq<Placed> := [];
      ghost var halted := false;
      var i := 0;
      while i < |cs|
        invariant 0 <= i <= |cs| && !halted && 0 <= showChildViewCount
        invariant PackUpTo(f, cs, i) ==
          Packing(rowList, childList, currentRowWidth, currentRowMaxHeight, reallyHeight,
                  totalShowRowCount, showChildViewCount, halted)
      {
        var c := cs[i];
        assert PackUpTo(f, cs, i + 1) == Step(f, PackUpTo(f, cs, i), c, i);
        if c.gone {
          i := i + 1;
          continue;
        }
        var fw := c.width + c.leftMargin + c.rightMargin;
        currentRowWidth := currentRowWidth + fw;
        currentRowMaxHeight := Max(c.height + c.topMargin + c.bottomMargin, currentRowMaxHeight);
        if currentRowWidth > viewContentWidth {
          reallyHeight := reallyHeight + currentRowMaxHeight;
          rowList := rowList + [Row(totalShowRowCount, currentRowMaxHeight, currentRowWidth - fw, childList)];
          currentRowWidth := fw;
          currentRowMaxHeight := c.height + c.topMargin + c.bottomMargin;
          childList := [];
          totalShowRowCount := totalShowRowCount + 1;
          if totalShowRowCount > maxRowCount {
            totalShowRowCount := totalShowRowCount - 1;
            currentRowMaxHeight := 0;
            halted := true;
            assert 0 <= showChildViewCount && PackUpTo(f, cs, i + 1) ==
              Packing(rowList, childList, currentRowWidth, currentRowMaxHeight, reallyHeight,
                      totalShowRowCount, showChildViewCount, halted);
            StoppedStays(f, cs, i + 1, |cs|);
            break;
          }
        }
        var right := currentRowWidth - c.rightMargin + paddingLeft;
        var top := reallyHeight + c.topMargin;
        childList := childList + [Placed(totalShowRowCount, i, right - c.width, top, right, top + c.height)];
        showChildViewCount := showChildViewCount + 1;
        i := i + 1;
      }
      assert 0 <= showChildViewCount && PackUpTo(f, cs, |cs|) ==
        Packing(rowList, childList, currentRowWidth, currentRowMaxHeight, reallyHeight,
                totalShowRowCount, showChildViewCount, halted);
      reallyHeight := reallyHeight + currentRowMaxHeight;
      rowList := rowList + [Row(totalShowRowCount, currentRowMaxHeight, currentRowWidth, childList)];
    }

    /**
     * onLayout. `itemCount` is None when no adapter is set, otherwise its
     * getItemCount(). Each placed child is laid out shifted by its gravity
     * offset and gets a click listener; the finish listener hears the
     * shown count.
     */
    method Layout(itemCount: Option<int>)
      modifies this`childViewAllShow, this`laidOut, this`clickTargets, this`finishedCounts
      ensures childViewAllShow == (itemCount.None? || itemCount.value == showChildViewCount)
      ensures finishedCounts == old(finishedCounts) + [showChildViewCount]
      ensures rowList == [] ==> laidOut == old(laidOut) && clickTargets == old(clickTargets)
      ensures rowList != [] ==>
        laidOut == LayoutAll(horizontalGravity, viewContentWidth, rowList) && clickTargets == Targets(laidOut)
    {
      childViewAllShow := itemCount.None? || itemCount.value == showChildViewCount;
      if rowList == [] {
        finishedCounts := finishedCounts + [showChildViewCount];
        return;
      }
      var offsetX := 0;
      var bounds: seq<Placed> := [];
      var targets: seq<(int, int)> := [];
      var r := 0;
      while r < |rowList|
        invariant 0 <= r <= |rowList|
        invariant bounds == LayoutAll(horizontalGravity, viewContentWidth, rowList[..r])
        invariant targets == Targets(bounds)
        invariant horizontalGravity !in {GravityRight, GravityLeftRight, GravityCenter} ==> offsetX == 0
        invariant childViewAllShow == (itemCount.None? || itemCount.value == showChildViewCount)
        invariant finishedCounts == old(finishedCounts)
      {
        var row := rowList[r];
        var n := |row.children|;
        if horizontalGravity == GravityRight {
          offsetX := viewContentWidth - row.usedWidth;
        } else if horizontalGravity == GravityLeftRight {
          if n > 1 {
            offsetX := JavaDiv(viewContentWidth - row.usedWidth, n - 1);
          } else {
            offsetX := 0;
          }
        } else if horizontalGravity == GravityCenter {
          offsetX := JavaDiv(viewContentWidth - row.usedWidth, 2);
        }
        var rowBounds, rowTargets := LayoutRowChildren(row, offsetX);
        TargetsAppend(bounds, rowBounds);
        assert rowList[..r + 1][..r] == rowList[..r];
        bounds, targets := bounds + rowBounds, targets + rowTargets;
        r := r + 1;
      }
      assert rowList[..|rowList|] == rowList;
      laidOut, clickTargets := bounds, targets;
      finishedCounts := finishedCounts + [showChildViewCount];
    }

    /**
     * The inner loop of onLayout: each child of `row` is laid out at its
     * gravity offset, built from the row's `offsetX` as onLayout does, and
     * reports its (row number, position) when clicked.
     */
    method LayoutRowChildren(row: Row, offsetX: int) returns (rowBounds: seq<Placed>, rowTargets: seq<(int, int)>)
      requires RowOffset(horizontalGravity, viewContentWidth - row.usedWidth, |row.children|, offsetX)
      ensures rowBounds == LayoutRow(horizontalGravity, viewContentWidth, row)
      ensures rowTargets == Targets(rowBounds)
    {
      var n := |row.children|;
      rowBounds, rowTargets := [], [];
      var i := 0;
      while i < n
        invariant 0 <= i <= n
        invariant rowBounds == LayoutRow(horizontalGravity, viewContentWidth, row)[..i]
        invariant rowTargets == Targets(rowBounds)
      {
        var child := row.children[i];
        var dx := if horizontalGravity == GravityLeftRight then offsetX * i else offsetX;
        RowOffsetShiftsChild(horizontalGravity, viewContentWidth - row.usedWidth, n, offsetX, i);
        rowBounds := rowBounds + [Shift(child, dx)];
        rowTargets := rowTargets + [(child.rowNumber, child.position)];
        i := i + 1;
      }
    }

    /** setMaxRowCount: see `MaxRowCountIgnored` for when it does nothing. */
    method SetMaxRowCount(v: int)
      modifies this`maxRowCount, this`scrollY, this`relayoutRequests
      ensures MaxRowCountIgnored(v, old(maxRowCount), childViewAllShow, totalShowRowCount) ==>
        maxRowCount == old(maxRowCount) && scrollY == old(scrollY) && relayoutRequests == old(relayoutRequests)
      ensures !MaxRowCountIgnored(v, old(maxRowCount), childViewAllShow, totalShowRowCount) ==>
        && maxRowCount == StoredMaxRowCount(v)
        && scrollY == (if old(scrollY) > 0 then 0 else old(scrollY))
        && relayoutRequests == old(relayoutRequests) + 1
    {
      if v == maxRowCount || (v < 0 && maxRowCount < 0)
        || (childViewAllShow && v > totalShowRowCount) || (childViewAllShow && v < 0)
      {
        return;
      }
      var stored := v;
      if stored < 0 {
        stored := IntMax;
      }
      maxRowCount := stored;
      if scrollY > 0 {
        scrollY := 0;
      }
      relayoutRequests := relayoutRequests + 1;
    }

    /** setHorizontalGravity: relayouts only when the gravity changes. */
    method SetHorizontalGravity(gravity: int)
      modifies this`horizontalGravity, this`relayoutRequests
      ensures horizontalGravity == gravity
      ensures relayoutRequests == old(relayoutRequests) + (if old(horizontalGravity) == gravity then 0 else 1)
    {
      if horizontalGravity != gravity {
        horizontalGravity := gravity;
        relayoutRequests := relayoutRequests + 1;
      }
    }

    /** The scroll state after `e`, starting from the old one. */
    twostate predicate Applied(e: ScrollEffect)
      reads this
    {
      match e
      case NoChange => scrollY == old(scrollY) && scroller == old(scroller)
      case JumpTo(y) => scrollY == y && scroller == old(scroller)
      case Animate(startY, dy) => scrollY == old(scrollY) && scroller == Smooth(startY, dy, SmoothDuration(dy))
    }

    /** smallScrollToPosition: (re)starts the Scroller on a smooth scroll. */
    method SmallScrollToPosition(startY: int, dy: int)
      modifies this`scroller
      ensures scroller == Smooth(startY, dy, SmoothDuration(dy))
    {
      scroller := Smooth(startY, dy, Min(600, Max(300, Abs(dy))));
    }

    method ScrollToTop(animation: bool)
      modifies this`scrollY, this`scroller
      ensures Applied(TopEffect(old(scrollY), animation))
    {
      if scrollY > 0 {
        if animation {
          SmallScrollToPosition(scrollY, -scrollY);
        } else {
          scrollY := 0;
        }
      }
    }

    method ScrollToBottom(animation: bool)
      modifies this`scrollY, this`scroller
      ensures Applied(BottomEffect(old(scrollY), maxScrollY, animation))
    {
      if maxScrollY > scrollY {
        if animation {
          SmallScrollToPosition(scrollY, maxScrollY - scrollY);
        } else {
          scrollY := maxScrollY;
        }
      }
    }

    method ScrollToPosition(position: int, animation: bool)
      modifies this`scrollY, this`scroller
      ensures Applied(PositionEffect(position, old(scrollY), maxScrollY, animation))
    {
      if position <= 0 {
        ScrollToTop(animation);
      } else if position >= maxScrollY {
        ScrollToBottom(animation);
      } else {
        if animation {
          SmallScrollToPosition(scrollY, position - scrollY);
        } else {
          scrollY := position;
        }
      }
    }

    /** The loop of scrollToRowNumber: heights summed up to the first row numbered `n`. */
    method RowPosition(n: int) returns (position: int)
      ensures position == RowScrollTarget(rowList, n)
    {
      position := 0;
      var k := 0;
      while k < |rowList|
        invariant 0 <= k <= |rowList|
        invariant position == SumHeights(rowList[..k])
        invariant forall j :: 0 <= j < k ==> rowList[j].rowNumber != n
      {
        assert rowList[..k + 1][..k] == rowList[..k];
        position := position + rowList[k].rowHeight;
        if rowList[k].rowNumber == n {
          return;
        }
        k := k + 1;
      }
      assert rowList[..|rowList|] == rowList;
    }

    method ScrollToRowNumber(n: int, animation: bool)
      modifies this`scrollY, this`scroller
      ensures n <= 0 ==> Applied(TopEffect(old(scrollY), animation))
      ensures 0 < n && totalShowRowCount <= n ==> Applied(BottomEffect(old(scrollY), maxScrollY, animation))
      ensures 0 < n < totalShowRowCount ==>
        Applied(PositionEffect(RowScrollTarget(rowList, n), old(scrollY), maxScrollY, animation))
    {
      if n <= 0 {
        ScrollToTop(animation);
      } else if n >= totalShowRowCount {
        ScrollToBottom(animation);
      } else {
        var position := RowPosition(n);
        ScrollToPosition(position, animation);
      }
    }

    /**
     * onTouchEvent for an event of kind `action` at height `y`; `velocity`
     * is what the VelocityTracker reports on UP.
     */
    method TouchEvent(action: Action, y: int, velocity: int) returns (r: TouchResult)
      requires Valid()
      modifies this`isActionDown, this`touchEventLastY, this`scrollY, this`scroller
      ensures r == Consumed ==> maxScrollY > 0
      ensures viewReallyHeight <= viewContentHeight + paddingTop + paddingBottom ==>
        && r == Delegated && isActionDown == old(isActionDown) && touchEventLastY == old(touchEventLastY)
        && scrollY == old(scrollY) && scroller == old(scroller)
      ensures viewReallyHeight > viewContentHeight + paddingTop + paddingBottom ==>
        match action
        case Move =>
          if !old(isActionDown) then
            && r == Consumed && isActionDown && touchEventLastY == y
            && scrollY == old(scrollY) && scroller == old(scroller)
          else
            var d := DragStep(old(scrollY), old(touchEventLastY) - y, maxScrollY);
            && (r == Delegated <==> d == PassOn)
            && isActionDown && scroller == Idle
            && scrollY == AfterDrag(old(scrollY), d)
            && touchEventLastY == (if d.MoveBy? then y else old(touchEventLastY))
        case Up =>
          && r == Consumed && !isActionDown
          && touchEventLastY == old(touchEventLastY) && scrollY == old(scrollY)
          && scroller == (if FlingVelocity(velocity).Some? then Fling(old(scrollY), FlingVelocity(velocity).value)
                          else old(scroller))
        case _ =>
          && r == Consumed && isActionDown == old(isActionDown) && touchEventLastY == old(touchEventLastY)
          && scrollY == old(scrollY) && scroller == old(scroller)
      ensures 0 <= old(scrollY) <= maxScrollY ==> 0 <= scrollY <= maxScrollY
    {
      if viewReallyHeight > viewContentHeight + paddingTop + paddingBottom {
        match action {
          case Move =>
            if !isActionDown {
              touchEventLastY := y;
              isActionDown := true;
            } else {
              scroller := Idle;
              var dy := touchEventLastY - y;
              if dy < 0 {
                if scrollY == 0 {
                  return Delegated;
                }
                if scrollY + dy < 0 {
                  scrollY := 0;
                  return Consumed;
                }
              } else {
                if scrollY == maxScrollY {
                  return Delegated;
                }
                if scrollY + dy > maxScrollY {
                  scrollY := maxScrollY;
                  return Consumed;
                }
              }
              scrollY := scrollY + dy;
              touchEventLastY := y;
            }
          case Up =>
            isActionDown := false;
            if Abs(velocity) > 200 {
              scroller := Fling(scrollY, -velocity);
            }
          case _ =>
        }
        return Consumed;
      } else {
        return Delegated;
      }
    }

    /**
     * computeScroll for one animation frame: `currY` is the Scroller's
     * current offset and `ended` says this frame reaches the animation's
     * end, after which the Scroller is finished.
     */
    method ComputeScroll(currY: int, ended: bool)
      modifies this`scrollY, this`scroller
      ensures old(scroller) == Idle ==> scrollY == old(scrollY) && scroller == Idle
      ensures old(scroller) != Idle ==>
        && scrollY == Min(currY, maxScrollY)
        && (scroller == Idle <==> ended || currY > maxScrollY)
        && (scroller != Idle ==> scroller == old(scroller))
    {
      if scroller != Idle {
        if ended {
          scroller := Idle;
        }
        var y := currY;
        if y > maxScrollY {
          y := maxScrollY;
          scrollY := y;
          scroller := Idle;
        }
        scrollY := y;
      }
    }
  }
}

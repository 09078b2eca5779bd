/**
 * PullFlowLayout, the older scrolling variant: a packer with no row limit,
 * no gravity and no GONE handling, and a drag that clamps the step instead
 * of snapping. Its running row width starts at the left padding but is
 * compared with a content width that already excludes both paddings, and
 * its row height is reset to 0 (not to the wrapping child's height) when a
 * row is closed.
 */
module PullFlow {
  import opened JavaInt
  import opened FlowMeasure
  import opened FlowScroll

  /** A placed child: its row number and rectangle (no adapter position is kept). */
  datatype PullPlaced = PullPlaced(rowNumber: int, left: int, top: int, right: int, bottom: int)

  /** What the packer reads besides the children. */
  datatype PullFrame = PullFrame(contentWidth: int, paddingLeft: int, paddingTop: int)

  /** The loop's state: the placed children, running row width and height, accumulated height, row count. */
  datatype PullPacking = PullPacking(
    placed: seq<PullPlaced>, rowWidth: int, rowMaxHeight: int, reallyHeight: int, totalRows: int)

  function PullStart(f: PullFrame): PullPacking
  {
    PullPacking([], f.paddingLeft, 0, f.paddingTop, 1)
  }

  /** The rectangle of a child whose row's running width, including it, is `rowWidth`. */
  function PullRect(c: Child, rowNumber: int, rowWidth: int, rowTop: int): PullPlaced
  {
    PullPlaced(rowNumber, rowWidth - c.width - c.rightMargin, rowTop + c.topMargin,
               rowWidth - c.rightMargin, rowTop + c.topMargin + c.height)
  }

  /** One iteration of the measure loop. */
  function PullStep(f: PullFrame, st: PullPacking, c: Child): PullPacking
  {
    var width := st.rowWidth + FullWidth(c);
    var maxH := Max(FullHeight(c), st.rowMaxHeight);
    if width > f.contentWidth then
      var w := f.paddingLeft + FullWidth(c);
      var h := st.reallyHeight + maxH;
      PullPacking(st.placed + [PullRect(c, st.totalRows + 1, w, h)], w, 0, h, st.totalRows + 1)
    else
      PullPacking(st.placed + [PullRect(c, st.totalRows, width, st.reallyHeight)],
                  width, maxH, st.reallyHeight, st.totalRows)
  }

  function PullUpTo(f: PullFrame, cs: seq<Child>, n: nat): PullPacking
    requires n <= |cs|
  {
    if n == 0 then PullStart(f) else PullStep(f, PullUpTo(f, cs, n - 1), cs[n - 1])
  }

  /** The height after the loop, before the bottom padding: the last row counts only if the running width is not 0. */
  function PullHeight(st: PullPacking): int
  {
    st.reallyHeight + (if st.rowWidth != 0 then st.rowMaxHeight else 0)
  }

  // ---------------------------------------------------------------------
  // What the packer guarantees

  /** Child j opened a new row (the loop's wrap branch ran for it). */
  predicate Wrapped(ps: seq<PullPlaced>, j: int)
    requires 0 <= j < |ps|
  {
    ps[j].rowNumber == (if j == 0 then 1 else ps[j - 1].rowNumber) + 1
  }

  /**
   * Child i counts toward the running height of the row child j is in:
   * it is in that row and did not open it (the opener's height is
   * forgotten when the running height restarts at 0).
   */
  predicate Counts(ps: seq<PullPlaced>, i: int, j: int)
    requires 0 <= i <= j < |ps|
  {
    ps[i].rowNumber == ps[j].rowNumber && !Wrapped(ps, i)
  }

  /**
   * `h` is the largest of 0, `x` and the full heights of the children up
   * to j that count toward the height of j's row.
   */
  predicate TallestIn(cs: seq<Child>, ps: seq<PullPlaced>, j: int, x: int, h: int)
    requires 0 <= j < |ps| <= |cs|
  {
    && 0 <= h && x <= h
    && (forall i :: 0 <= i <= j && Counts(ps, i, j) ==> FullHeight(cs[i]) <= h)
    && (h == 0 || h == x || exists i :: 0 <= i <= j && Counts(ps, i, j) && FullHeight(cs[i]) == h)
  }

  /** The rectangle has the child's measured size. */
  predicate Sized(c: Child, p: PullPlaced)
  {
    p.right - p.left == c.width && p.bottom - p.top == c.height
  }

  /**
   * Where child 0 goes: at the left padding; it opens row 2 exactly when
   * its full width plus the left padding exceeds the content width, and
   * then the rows start lower by its full height (by 0 if that is
   * negative); otherwise it is in row 1 at the top padding.
   */
  predicate Opens(f: PullFrame, cs: seq<Child>, ps: seq<PullPlaced>)
    requires 0 < |ps| <= |cs|
  {
    var top := ps[0].top - cs[0].topMargin;
    && ps[0].left - cs[0].leftMargin == f.paddingLeft
    && (Wrapped(ps, 0) <==> f.paddingLeft + FullWidth(cs[0]) > f.contentWidth)
    && (Wrapped(ps, 0) ==> top - f.paddingTop == Max(FullHeight(cs[0]), 0))
    && (!Wrapped(ps, 0) ==> ps[0].rowNumber == 1 && top == f.paddingTop)
  }

  /**
   * How child j sits relative to child j - 1. It goes to the next row
   * exactly when its full width does not fit after the end of child j - 1
   * (margins included, measured against the content width from 0). In
   * the same row it follows child j - 1 without a gap under the same row
   * top; in the next row it starts at the left padding, and the row top
   * is lower by the largest of 0, its own full height and the full
   * heights of the children that count toward the row it left.
   */
  predicate Follows(f: PullFrame, cs: seq<Child>, ps: seq<PullPlaced>, j: int)
    requires 0 < j < |ps| <= |cs|
  {
    var prev, cur := ps[j - 1], ps[j];
    var prevTop, curTop := prev.top - cs[j - 1].topMargin, cur.top - cs[j].topMargin;
    && (cur.rowNumber != prev.rowNumber <==>
          prev.right + cs[j - 1].rightMargin + FullWidth(cs[j]) > f.contentWidth)
    && if cur.rowNumber == prev.rowNumber then
         && cur.left - cs[j].leftMargin == prev.right + cs[j - 1].rightMargin
         && curTop == prevTop
       else
         && cur.rowNumber == prev.rowNumber + 1
         && cur.left - cs[j].leftMargin == f.paddingLeft
         && TallestIn(cs, ps, j - 1, FullHeight(cs[j]), curTop - prevTop)
  }

  ghost predicate PullInv(f: PullFrame, cs: seq<Child>, n: nat, st: PullPacking)
    requires n <= |cs|
  {
    var ps := st.placed;
    && |ps| == n && st.totalRows >= 1
    && (n == 0 ==> st == PullStart(f))
    && (n > 0 ==>
          && ps[n - 1].rowNumber == st.totalRows
          && ps[n - 1].top - cs[n - 1].topMargin == st.reallyHeight
          && ps[n - 1].right + cs[n - 1].rightMargin == st.rowWidth
          && TallestIn(cs, ps, n - 1, 0, st.rowMaxHeight)
          && Opens(f, cs, ps))
    && (forall j :: 0 <= j < n ==> Sized(cs[j], ps[j]) && ps[j].rowNumber <= st.totalRows)
    && (forall j :: 0 < j < n ==> Follows(f, cs, ps, j))
  }

  /** Appending a placement leaves `TallestIn` about the earlier ones unchanged. */
  lemma TallestInSnoc(cs: seq<Child>, ps: seq<PullPlaced>, p: PullPlaced, j: int, x: int, h: int)
    requires 0 <= j < |ps| < |cs| && TallestIn(cs, ps, j, x, h)
    ensures TallestIn(cs, ps + [p], j, x, h)
  {
    var ps' := ps + [p];
    forall i | 0 <= i <= j
      ensures Counts(ps', i, j) == Counts(ps, i, j)
    {
      if i > 0 {
        assert ps'[i - 1] == ps[i - 1];
      }
    }
    if h != 0 && h != x {
      var i :| 0 <= i <= j && Counts(ps, i, j) && FullHeight(cs[i]) == h;
      assert Counts(ps', i, j);
    }
  }

  /** A wrapping child raises the closed row's height to its own full height. */
  lemma TallestInRaise(cs: seq<Child>, ps: seq<PullPlaced>, j: int, x: int, h: int)
    requires 0 <= j < |ps| <= |cs| && TallestIn(cs, ps, j, 0, h)
    ensures TallestIn(cs, ps, j, x, Max(x, h))
  {
  }

  /** A child appended to the open row counts toward its height. */
  lemma TallestInExtend(cs: seq<Child>, ps: seq<PullPlaced>, p: PullPlaced, h: int)
    requires 0 < |ps| < |cs| && TallestIn(cs, ps, |ps| - 1, 0, h)
    requires p.rowNumber == ps[|ps| - 1].rowNumber
    ensures TallestIn(cs, ps + [p], |ps|, 0, Max(FullHeight(cs[|ps|]), h))
  {
    var n, ps' := |ps|, ps + [p];
    var h' := Max(FullHeight(cs[n]), h);
    TallestInSnoc(cs, ps, p, n - 1, 0, h);
    assert Counts(ps', n, n);
    forall i | 0 <= i < n
      ensures Counts(ps', i, n) == Counts(ps', i, n - 1)
    {
    }
    if h' != 0 && h' != FullHeight(cs[n]) {
      var i :| 0 <= i <= n - 1 && Counts(ps', i, n - 1) && FullHeight(cs[i]) == h;
      assert Counts(ps', i, n);
    }
  }

  /** Appending a placement keeps what was said about the earlier ones. */
  lemma PullSnoc(f: PullFrame, cs: seq<Child>, ps: seq<PullPlaced>, p: PullPlaced)
    requires |ps| < |cs|
    requires forall j :: 0 < j < |ps| ==> Follows(f, cs, ps, j)
    requires |ps| > 0 ==> Opens(f, cs, ps)
    ensures forall j :: 0 < j < |ps| ==> Follows(f, cs, ps + [p], j)
    ensures |ps| > 0 ==> Opens(f, cs, ps + [p])
  {
    var ps' := ps + [p];
    forall j | 0 < j < |ps|
      ensures Follows(f, cs, ps', j)
    {
      assert Follows(f, cs, ps, j);
      assert ps'[j] == ps[j] && ps'[j - 1] == ps[j - 1];
      if ps[j].rowNumber != ps[j - 1].rowNumber {
        var d := (ps[j].top - cs[j].topMargin) - (ps[j - 1].top - cs[j - 1].topMargin);
        TallestInSnoc(cs, ps, p, j - 1, FullHeight(cs[j]), d);
      }
    }
  }

  /** Step case: the child fits after the open row's running width. */
  lemma PullStepAppend(f: PullFrame, cs: seq<Child>, n: nat, st: PullPacking, st': PullPacking)
    requires n < |cs| && PullInv(f, cs, n, st) && st' == PullStep(f, st, cs[n])
    requires st.rowWidth + FullWidth(cs[n]) <= f.contentWidth
    ensures PullInv(f, cs, n + 1, st')
  {
    var ps, ps' := st.placed, st'.placed;
    var p := ps'[n];
    assert ps' == ps + [p];
    PullSnoc(f, cs, ps, p);
    if n == 0 {
      assert !Wrapped(ps', 0) && Counts(ps', 0, 0);
    } else {
      TallestInExtend(cs, ps, p, st.rowMaxHeight);
      assert Follows(f, cs, ps', n);
    }
  }

  /** Step case: the child wraps; the open row closes and the child opens the next one. */
  lemma PullStepWrap(f: PullFrame, cs: seq<Child>, n: nat, st: PullPacking, st': PullPacking)
    requires n < |cs| && PullInv(f, cs, n, st) && st' == PullStep(f, st, cs[n])
    requires st.rowWidth + FullWidth(cs[n]) > f.contentWidth
    ensures PullInv(f, cs, n + 1, st')
  {
    var ps, ps' := st.placed, st'.placed;
    var p := ps'[n];
    assert ps' == ps + [p];
    PullSnoc(f, cs, ps, p);
    assert Wrapped(ps', n);
    forall i | 0 <= i <= n
      ensures !Counts(ps', i, n)
    {
      if i < n {
        assert ps'[i].rowNumber <= st.totalRows;
      }
    }
    if n > 0 {
      TallestInSnoc(cs, ps, p, n - 1, 0, st.rowMaxHeight);
      TallestInRaise(cs, ps', n - 1, FullHeight(cs[n]), st.rowMaxHeight);
      assert Follows(f, cs, ps', n);
    }
  }

  lemma PullStepInv(f: PullFrame, cs: seq<Child>, n: nat, st: PullPacking, st': PullPacking)
    requires n < |cs| && PullInv(f, cs, n, st) && st' == PullStep(f, st, cs[n])
    ensures PullInv(f, cs, n + 1, st')
  {
    if st.rowWidth + FullWidth(cs[n]) > f.contentWidth {
      PullStepWrap(f, cs, n, st, st');
    } else {
      PullStepAppend(f, cs, n, st, st');
    }
  }

  lemma {:induction false} PullUpToInv(f: PullFrame, cs: seq<Child>, n: nat)
    requires n <= |cs|
    ensures PullInv(f, cs, n, PullUpTo(f, cs, n))
  {
    if n > 0 {
      PullUpToInv(f, cs, n - 1);
      PullStepInv(f, cs, n - 1, PullUpTo(f, cs, n - 1), PullUpTo(f, cs, n));
    }
  }

  /**
   * Every child is placed, with its measured size; row numbers start at 1
   * (2 when the very first child already wraps), never decrease and grow
   * by at most one per child, and the last child's row number is the row
   * count.
   */
  lemma PullPlacesAll(f: PullFrame, cs: seq<Child>)
    requires |cs| > 0
    ensures var st := PullUpTo(f, cs, |cs|); var ps := st.placed;
      && |ps| == |cs|
      && 1 <= ps[0].rowNumber <= 2
      && ps[|ps| - 1].rowNumber == st.totalRows
      && (forall j :: 0 <= j < |ps| ==> ps[j].right - ps[j].left == cs[j].width && ps[j].bottom - ps[j].top == cs[j].height)
      && (forall j :: 0 < j < |ps| ==> ps[j - 1].rowNumber <= ps[j].rowNumber <= ps[j - 1].rowNumber + 1)
  {
    PullUpToInv(f, cs, |cs|);
    var ps := PullUpTo(f, cs, |cs|).placed;
    forall j | 0 < j < |ps|
      ensures ps[j - 1].rowNumber <= ps[j].rowNumber <= ps[j - 1].rowNumber + 1
    {
      assert Follows(f, cs, ps, j);
    }
    forall j | 0 <= j < |ps|
      ensures ps[j].right - ps[j].left == cs[j].width && ps[j].bottom - ps[j].top == cs[j].height
    {
      assert Sized(cs[j], ps[j]);
    }
  }

  /**
   * The placement of every child: child 0 as `Opens` says, every later
   * child relative to the one before it as `Follows` says. In particular a
   * child that stays in its row ends within the content width.
   */
  lemma PullGeometry(f: PullFrame, cs: seq<Child>, j: nat)
    requires j < |cs|
    ensures var ps := PullUpTo(f, cs, |cs|).placed;
      && |ps| == |cs|
      && (j == 0 ==> Opens(f, cs, ps))
      && (j > 0 ==> Follows(f, cs, ps, j))
      && (j > 0 && ps[j].rowNumber == ps[j - 1].rowNumber ==> ps[j].right + cs[j].rightMargin <= f.contentWidth)
  {
    PullUpToInv(f, cs, |cs|);
    var ps := PullUpTo(f, cs, |cs|).placed;
    if j > 0 {
      assert Follows(f, cs, ps, j);
      assert Sized(cs[j], ps[j]);
    }
  }

  /**
   * The height the pass reports: the top of the last row plus, when the
   * running width is not 0, the largest of 0 and the full heights of the
   * children that count toward that row; when the running width is 0 the
   * last row adds nothing.
   */
  lemma PullTotalHeight(f: PullFrame, cs: seq<Child>)
    requires |cs| > 0
    ensures var st := PullUpTo(f, cs, |cs|); var ps := st.placed; var n := |cs|;
      && |ps| == n
      && var lastTop, rowWidth := ps[n - 1].top - cs[n - 1].topMargin, ps[n - 1].right + cs[n - 1].rightMargin;
      && (rowWidth == 0 ==> PullHeight(st) == lastTop)
      && (rowWidth != 0 ==> TallestIn(cs, ps, n - 1, 0, PullHeight(st) - lastTop))
  {
    PullUpToInv(f, cs, |cs|);
  }

  /** Each iteration places exactly one child. */
  lemma {:induction false} PullLength(f: PullFrame, cs: seq<Child>, n: nat)
    requires n <= |cs|
    ensures |PullUpTo(f, cs, n).placed| == n
  {
    if n > 0 {
      PullLength(f, cs, n - 1);
    }
  }

  /** Later iterations only append: the first m placements never change. */
  lemma {:induction false} PullPrefix(f: PullFrame, cs: seq<Child>, m: nat, n: nat)
    requires m <= n <= |cs|
    ensures |PullUpTo(f, cs, m).placed| == m && |PullUpTo(f, cs, n).placed| == n
    ensures PullUpTo(f, cs, n).placed[..m] == PullUpTo(f, cs, m).placed
  {
    PullLength(f, cs, m);
    PullLength(f, cs, n);
    if m < n {
      PullPrefix(f, cs, m, n - 1);
      assert PullUpTo(f, cs, n).placed[..n - 1] == PullUpTo(f, cs, n - 1).placed;
      assert PullUpTo(f, cs, n).placed[..m] == PullUpTo(f, cs, n).placed[..n - 1][..m];
    }
  }

  /**
   * Because the row height restarts at 0 after a wrap, the child that
   * opens a row does not count toward that row's height: when the next
   * child wraps again, the new row top lies only that next child's full
   * height lower. A tall child alone on its row is therefore overlapped
   * by the following row.
   */
  lemma WrapForgetsOpener(f: PullFrame, cs: seq<Child>, j: nat)
    requires j + 1 < |cs|
    ensures var ps := PullUpTo(f, cs, |cs|).placed;
      && |ps| == |cs|
      && (Wrapped(ps, j) && Wrapped(ps, j + 1) ==>
            (ps[j + 1].top - cs[j + 1].topMargin) - (ps[j].top - cs[j].topMargin) == Max(FullHeight(cs[j + 1]), 0))
  {
    PullPrefix(f, cs, j + 2, |cs|);
    PullPrefix(f, cs, j + 1, j + 2);
    PullUpToInv(f, cs, j);
    PullUpToInv(f, cs, j + 1);
    var ps := PullUpTo(f, cs, |cs|).placed;
    var qs := PullUpTo(f, cs, j + 2).placed;
    assert ps[..j + 2] == qs;
    assert ps[j] == qs[j] && ps[j + 1] == qs[j + 1];
    if j > 0 {
      PullPrefix(f, cs, j, j + 1);
      assert qs[j - 1] == PullUpTo(f, cs, j).placed[j - 1];
    }
  }

  /**
   * The clamped step of a MOVE: an upward step stops at offset 0, and a
   * downward step that would scroll the content past its end lands at
   * viewReallyHeight - viewContentHeight - paddingBottom instead.
   */
  function PullDragDy(scrollY: int, dy: int, reallyHeight: int, contentHeight: int, paddingBottom: int): (d: int)
    ensures dy < 0 ==> scrollY + d == Max(scrollY + dy, 0)
    ensures 0 <= dy && scrollY + dy + contentHeight <= reallyHeight ==> d == dy
    ensures 0 <= dy && scrollY + dy + contentHeight > reallyHeight ==>
      scrollY + d == reallyHeight - contentHeight - paddingBottom
    ensures 0 <= dy && 0 <= paddingBottom ==> scrollY + d <= reallyHeight - contentHeight
  {
    if dy < 0 then
      if scrollY + dy < 0 then -scrollY else dy
    else
      if scrollY + dy + contentHeight > reallyHeight then reallyHeight - contentHeight - scrollY - paddingBottom
      else dy
  }

  /**
   * A drag that starts inside [0, viewReallyHeight - viewContentHeight]
   * ends inside it when the bottom padding is at most that range.
   */
  lemma PullDragStaysInRange(scrollY: int, dy: int, reallyHeight: int, contentHeight: int, paddingBottom: int)
    requires 0 <= paddingBottom <= reallyHeight - contentHeight
    requires 0 <= scrollY <= reallyHeight - contentHeight
    ensures 0 <= scrollY + PullDragDy(scrollY, dy, reallyHeight, contentHeight, paddingBottom) <= reallyHeight - contentHeight
  {
  }

  /**
   * With a bottom padding larger than the scroll range, a downward step at
   * offset 0 scrolls the content above its top.
   */
  lemma PullDragCanLeaveRange()
    ensures 0 + PullDragDy(0, 5, 101, 100, 10) == -9
  {
  }

  class PullFlowLayout {
    const paddingLeft: int
    const paddingTop: int
    const paddingRight: int
    const paddingBottom: int

    var viewContentHeight: int
    var viewReallyHeight: int
    var totalRowCount: int
    var childViewList: seq<PullPlaced>
    var measuredHeight: int          // the height given to setMeasuredDimension
    var lastY: int
    var scrollY: int                 // getScrollY()
    var scroller: Animation          // mScroller

    /** No code path starts the Scroller, so it stays finished. */
    predicate Valid()
      reads this
    {
      scroller == Idle
    }

    constructor (pl: int, pt: int, pr: int, pb: int)
      ensures Valid()
      ensures paddingLeft == pl && paddingTop == pt && paddingRight == pr && paddingBottom == pb
      ensures viewContentHeight == 0 && viewReallyHeight == 0 && totalRowCount == 0 && childViewList == []
      ensures lastY == 0 && scrollY == 0
    {
      paddingLeft, paddingTop, paddingRight, paddingBottom := pl, pt, pr, pb;
      viewContentHeight, viewReallyHeight, totalRowCount := 0, 0, 0;
      childViewList := [];
      measuredHeight, lastY, scrollY := 0, 0, 0;
      scroller := Idle;
    }

    /**
     * onMeasure. `adapter` is None when no adapter is set (the platform
     * then sizes the view, which is not modelled), otherwise the measured
     * children it creates.
     */
    method Measure(adapter: Option<seq<Child>>, widthSize: int, heightSize: int, exactly: bool)
      modifies this`viewContentHeight, this`viewReallyHeight, this`totalRowCount, this`childViewList, this`measuredHeight
      ensures adapter.None? ==>
        && viewContentHeight == old(viewContentHeight) && viewReallyHeight == old(viewReallyHeight)
        && totalRowCount == old(totalRowCount) && childViewList == old(childViewList)
        && measuredHeight == old(measuredHeight)
      ensures adapter.Some? ==>
        && viewContentHeight == heightSize - paddingTop - paddingBottom
        && measuredHeight == (if exactly then heightSize else viewReallyHeight)
      ensures adapter.Some? && adapter.value == [] ==>
        && viewReallyHeight == paddingTop + paddingBottom
        && totalRowCount == old(totalRowCount) && childViewList == old(childViewList)
      ensures adapter.Some? && adapter.value != [] ==>
        var st := PullUpTo(PullFrame(widthSize - paddingLeft - paddingRight, paddingLeft, paddingTop), adapter.value, |adapter.value|);
        && childViewList == st.placed && totalRowCount == st.totalRows
        && viewReallyHeight == PullHeight(st) + paddingBottom
    {
      if adapter.None? {
        return;
      }
      viewContentHeight := heightSize - paddingTop - paddingBottom;
      var reallyHeight := paddingTop;
      var cs := adapter.value;
      if |cs| > 0 {
        childViewList := [];
        var contentWidth := widthSize - paddingLeft - paddingRight;
        ghost var f := PullFrame(contentWidth, paddingLeft, paddingTop);
        var currentRowWidth := paddingLeft;
        var currentRowMaxHeight := 0;
        totalRowCount := 1;
        var i := 0;
        while i < |cs|
          invariant 0 <= i <= |cs|
          invariant viewContentHeight == heightSize - paddingTop - paddingBottom
          invariant PullUpTo(f, cs, i) ==
            PullPacking(childViewList, currentRowWidth, currentRowMaxHeight, reallyHeight, totalRowCount)
        {
          var c := cs[i];
          currentRowWidth := currentRowWidth + c.width + c.leftMargin + c.rightMargin;
          currentRowMaxHeight := Max(c.height + c.topMargin + c.bottomMargin, currentRowMaxHeight);
          if currentRowWidth > contentWidth {
            currentRowWidth := paddingLeft + c.width + c.leftMargin + c.rightMargin;
            reallyHeight := reallyHeight + currentRowMaxHeight;
            currentRowMaxHeight := 0;
            totalRowCount := totalRowCount + 1;
          }
          childViewList := childViewList + [PullPlaced(totalRowCount,
            currentRowWidth - c.width - c.rightMargin, reallyHeight + c.topMargin,
            currentRowWidth - c.rightMargin, reallyHeight + c.topMargin + c.height)];
          i := i + 1;
        }
        if currentRowWidth != 0 {
          reallyHeight := reallyHeight + currentRowMaxHeight;
        }
      }
      reallyHeight := reallyHeight + paddingBottom;
      viewReallyHeight := reallyHeight;
      measuredHeight := if exactly then heightSize else reallyHeight;
    }

    /** onTouchEvent for an event of kind `action` at height `y`. */
    method TouchEvent(action: Action, y: int) returns (r: TouchResult)
      requires Valid()
      modifies this`lastY, this`scrollY, this`scroller
      ensures Valid()
      ensures viewReallyHeight <= viewContentHeight ==>
        r == Delegated && lastY == old(lastY) && scrollY == old(scrollY)
      ensures viewReallyHeight > viewContentHeight ==>
        && r == Consumed
        && (action == Down ==> lastY == y && scrollY == old(scrollY))
        && (action == Move ==>
              lastY == y
              && scrollY == old(scrollY)
                 + PullDragDy(old(scrollY), old(lastY) - y, viewReallyHeight, viewContentHeight, paddingBottom))
        && (action != Down && action != Move ==> lastY == old(lastY) && scrollY == old(scrollY))
    {
      if viewReallyHeight > viewContentHeight {
        match action {
          case Down =>
            lastY := y;
          case Move =>
            scroller := Idle;
            var dy := lastY - y;
            if dy < 0 {
              if scrollY + dy < 0 {
                dy := -scrollY;
              }
            } else {
              if scrollY + dy + viewContentHeight > viewReallyHeight {
                dy := viewReallyHeight - viewContentHeight - scrollY - paddingBottom;
              }
            }
            scrollY := scrollY + dy;
            lastY := y;
          case _ =>
        }
        return Consumed;
      } else {
        return Delegated;
      }
    }

    /**
     * computeScroll for one frame, `currY` being the Scroller's offset and
     * `ended` saying this frame finishes the animation: the view follows
     * the Scroller unclamped while it runs. Nothing starts it (see Valid),
     * so in practice this changes nothing.
     */
    method ComputeScroll(currY: int, ended: bool)
      modifies this`scrollY, this`scroller
      ensures old(scroller) == Idle ==> scrollY == old(scrollY) && scroller == Idle
      ensures old(scroller) != Idle ==>
        scrollY == currY && (scroller == Idle <==> ended) && (scroller != Idle ==> scroller == old(scroller))
    {
      if scroller != Idle {
        scrollY := currY;
        if ended {
          scroller := Idle;
        }
      }
    }
  }
}

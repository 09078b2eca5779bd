/**
 * The horizontal alignment of FlowLayout.onLayout: after the measure pass
 * has packed the rows left-aligned, every child of a row is shifted right
 * by an offset that depends on the gravity, the row's slack (content width
 * minus used width), the number of children in the row and the child's
 * index in it. Only the left and right edges move.
 */
module FlowGravity {
  import opened JavaInt
  import opened FlowMeasure

  const GravityLeft: int := 0
  const GravityRight: int := 1
  const GravityLeftRight: int := 2
  const GravityCenter: int := 3

  /**
   * Offset of child `i` (0-based) of a row with `n` children whose used
   * width leaves `slack` pixels of the content width free. The divisions
   * are Java's, rounding toward zero.
   */
  function ChildOffset(gravity: int, slack: int, n: int, i: int): (dx: int)
    requires 0 <= i < n
    ensures gravity == GravityRight ==> dx == slack
    ensures gravity == GravityCenter ==>
      Abs(slack - 2 * dx) <= 1 && Abs(2 * dx) <= Abs(slack) && (dx == 0 || (dx < 0) == (slack < 0))
    ensures gravity == GravityLeftRight && n > 1 ==> dx == JavaDiv(slack, n - 1) * i
    ensures gravity == GravityLeftRight ==> (i == 0 || n == 1 ==> dx == 0)
    ensures gravity == GravityLeftRight && slack >= 0 ==> 0 <= dx <= slack
    ensures gravity == GravityLeftRight && slack < 0 ==> slack <= dx <= 0
    ensures gravity == GravityLeftRight && slack >= 0 && n > 1 && i == n - 1 ==>
      slack - (n - 2) <= dx
    ensures gravity !in {GravityRight, GravityLeftRight, GravityCenter} ==> dx == 0
  {
    if gravity == GravityRight then slack
    else if gravity == GravityLeftRight then
      (if n > 1 then JavaDivScaled(slack, n - 1, i); JavaDiv(slack, n - 1) * i else 0)
    else if gravity == GravityCenter then JavaDiv(slack, 2)
    else 0
  }

  /** LEFT_RIGHT spreads a row in equal steps: child i+1 sits one fixed gap further than child i. */
  lemma LeftRightEqualGaps(slack: int, n: int, i: int)
    requires 0 <= i && i + 1 < n
    ensures ChildOffset(GravityLeftRight, slack, n, i + 1) - ChildOffset(GravityLeftRight, slack, n, i)
         == ChildOffset(GravityLeftRight, slack, n, 1)
  {
    var q := JavaDiv(slack, n - 1);
    assert q * (i + 1) - q * i == q * 1;
  }

  /**
   * Worked example, for illustration (the general rule is ChildOffset's
   * contract): a slack of 10 spreads two children as 0, 10 and three as
   * 0, 5, 10.
   */
  lemma LeftRightExamples()
    ensures ChildOffset(GravityLeftRight, 10, 2, 0) == 0 && ChildOffset(GravityLeftRight, 10, 2, 1) == 10
    ensures ChildOffset(GravityLeftRight, 10, 3, 0) == 0 && ChildOffset(GravityLeftRight, 10, 3, 1) == 5
    ensures ChildOffset(GravityLeftRight, 10, 3, 2) == 10
  {
  }

  /**
   * Worked example, for illustration: a row that overflows by 5 pixels is
   * centred 2 (not 3) pixels to the left, because Java rounds toward zero.
   */
  lemma CenterRoundsTowardZero()
    ensures ChildOffset(GravityCenter, -5, 1, 0) == -2
  {
  }

  /** The child moved horizontally by `dx`. */
  function Shift(p: Placed, dx: int): Placed
  {
    p.(left := p.left + dx, right := p.right + dx)
  }

  /**
   * The final bounds of a row's children (ChildViewInfo.onLayout for
   * each): child i keeps its row, position and vertical extent, and both
   * its edges move right by its gravity offset.
   */
  function LayoutRow(gravity: int, contentWidth: int, row: Row): (ps: seq<Placed>)
    ensures |ps| == |row.children|
    ensures forall i :: 0 <= i < |ps| ==>
      var p, dx := row.children[i], ChildOffset(gravity, contentWidth - row.usedWidth, |row.children|, i);
      && ps[i].left == p.left + dx && ps[i].right == p.right + dx
      && ps[i].rowNumber == p.rowNumber && ps[i].position == p.position
      && ps[i].top == p.top && ps[i].bottom == p.bottom
  {
    seq(|row.children|, i requires 0 <= i < |row.children| =>
      Shift(row.children[i], ChildOffset(gravity, contentWidth - row.usedWidth, |row.children|, i)))
  }

  /**
   * The final bounds of every placed child, row after row: layout moves
   * children only sideways, so child i of the result is placed child i
   * with the same row, position, width and vertical extent.
   */
  function LayoutAll(gravity: int, contentWidth: int, rows: seq<Row>): (qs: seq<Placed>)
    ensures |qs| == |Placements(rows)|
    ensures forall i :: 0 <= i < |qs| ==>
      var p := Placements(rows)[i];
      && qs[i].rowNumber == p.rowNumber && qs[i].position == p.position
      && qs[i].top == p.top && qs[i].bottom == p.bottom
      && qs[i].right - qs[i].left == p.right - p.left
  {
    if rows == [] then []
    else LayoutAll(gravity, contentWidth, rows[..|rows| - 1]) + LayoutRow(gravity, contentWidth, rows[|rows| - 1])
  }

  /** The (rowNumber, position) pair a click on a laid-out child reports. */
  function Targets(ps: seq<Placed>): seq<(int, int)>
  {
    seq(|ps|, i requires 0 <= i < |ps| => (ps[i].rowNumber, ps[i].position))
  }

  /**
   * The per-row `offsetX` onLayout computes before laying out a row of `n`
   * children; it stays 0 under LEFT or an unknown gravity.
   */
  predicate RowOffset(gravity: int, slack: int, n: int, offsetX: int)
  {
    if gravity == GravityRight then offsetX == slack
    else if gravity == GravityLeftRight then offsetX == (if n > 1 then JavaDiv(slack, n - 1) else 0)
    else if gravity == GravityCenter then offsetX == JavaDiv(slack, 2)
    else offsetX == 0
  }

  /**
   * The shift onLayout applies to child i from the row's `offsetX`
   * (`offsetX * i` under LEFT_RIGHT, `offsetX` otherwise) is that child's
   * gravity offset.
   */
  lemma RowOffsetShiftsChild(gravity: int, slack: int, n: int, offsetX: int, i: int)
    requires RowOffset(gravity, slack, n, offsetX) && 0 <= i < n
    ensures ChildOffset(gravity, slack, n, i) == if gravity == GravityLeftRight then offsetX * i else offsetX
  {
  }

  lemma TargetsAppend(ps: seq<Placed>, qs: seq<Placed>)
    ensures Targets(ps + qs) == Targets(ps) + Targets(qs)
  {
  }

  /** A click on a laid-out child reports the row and position the measure pass recorded for it. */
  lemma LayoutAllKeepsTargets(gravity: int, contentWidth: int, rows: seq<Row>)
    ensures Targets(LayoutAll(gravity, contentWidth, rows)) == Targets(Placements(rows))
  {
    var ps, qs := Placements(rows), LayoutAll(gravity, contentWidth, rows);
    assert forall i :: 0 <= i < |qs| ==> Targets(qs)[i] == Targets(ps)[i];
  }

  /**
   * With RIGHT gravity the last child of a packed row ends, right margin
   * included, exactly at the right edge of the content area.
   */
  lemma RightGravityReachesRightEdge(f: Frame, cs: seq<Child>, row: Row)
    requires SpansUsedWidth(f, cs, row) && row.children != []
    ensures var ps := LayoutRow(GravityRight, f.contentWidth, row);
      var n := |row.children|;
      ps[n - 1].right + cs[row.children[n - 1].position].rightMargin == f.paddingLeft + f.contentWidth
  {
  }

  /**
   * With CENTER gravity the free space left of the first child and right
   * of the last child of a packed row differ by at most one pixel.
   */
  lemma CenterGravityBalancesRow(f: Frame, cs: seq<Child>, row: Row, rowTop: int)
    requires RowShape(f, cs, row, rowTop) && SpansUsedWidth(f, cs, row) && row.children != []
    ensures var ps := LayoutRow(GravityCenter, f.contentWidth, row);
      var n := |row.children|;
      var leftGap := ps[0].left - cs[row.children[0].position].leftMargin - f.paddingLeft;
      var rightGap := f.paddingLeft + f.contentWidth - (ps[n - 1].right + cs[row.children[n - 1].position].rightMargin);
      Abs(leftGap - rightGap) <= 1
  {
  }

  /**
   * With LEFT_RIGHT gravity the first child of a packed row stays at the
   * left edge and, when the row has room to spare, the last child ends at
   * most n - 2 pixels short of the right edge (the per-gap quotient is
   * rounded down once and multiplied).
   */
  lemma LeftRightGravityJustifiesRow(f: Frame, cs: seq<Child>, row: Row, rowTop: int)
    requires RowShape(f, cs, row, rowTop) && SpansUsedWidth(f, cs, row)
    requires |row.children| >= 2 && row.usedWidth <= f.contentWidth
    ensures var ps := LayoutRow(GravityLeftRight, f.contentWidth, row);
      var n := |row.children|;
      var shortfall := f.paddingLeft + f.contentWidth - (ps[n - 1].right + cs[row.children[n - 1].position].rightMargin);
      && ps[0].left == f.paddingLeft + cs[row.children[0].position].leftMargin
      && 0 <= shortfall <= n - 2
  {
  }
}

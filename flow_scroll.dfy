/**
 * The scrolling decisions of FlowLayout, as pure functions of the scroll
 * offset and mMaxScrollY: where the programmatic scroll API sends the
 * view, how a drag step is clamped, when a release starts a fling, and
 * which offset scrollToRowNumber aims at. The FlowLayout class applies
 * them to its fields.
 */
module FlowScroll {
  import opened JavaInt
  import opened FlowMeasure

  /** The Scroller: idle, flinging from a start offset, or a timed smooth scroll. */
  datatype Animation = Idle | Fling(startY: int, velocityY: int) | Smooth(startY: int, dy: int, duration: int)

  /** The touch actions FlowLayout distinguishes; any other action code is `Other`. */
  datatype Action = Down | Move | Up | Other(code: int)

  /** What onTouchEvent answers: the event was consumed, or it went to the View superclass. */
  datatype TouchResult = Consumed | Delegated

  /** Duration in milliseconds of a smooth scroll by `dy`: |dy| clamped to [300, 600]. */
  function SmoothDuration(dy: int): (d: int)
    ensures 300 <= d <= 600
    ensures 300 <= Abs(dy) <= 600 ==> d == Abs(dy)
    ensures Abs(dy) < 300 ==> d == 300
    ensures Abs(dy) > 600 ==> d == 600
  {
    Min(600, Max(300, Abs(dy)))
  }

  /** What a programmatic scroll request does: nothing, an immediate scrollTo, or a smooth scroll. */
  datatype ScrollEffect = NoChange | JumpTo(y: int) | Animate(startY: int, dy: int)

  /** The offset the view ends at once the effect has run its course. */
  function Destination(e: ScrollEffect, scrollY: int): int
  {
    match e
    case NoChange => scrollY
    case JumpTo(y) => y
    case Animate(startY, dy) => startY + dy
  }

  /** scrollToTop: acts only when scrolled down, and heads for offset 0. */
  function TopEffect(scrollY: int, animation: bool): (e: ScrollEffect)
    ensures e == NoChange <==> scrollY <= 0
    ensures e != NoChange ==> Destination(e, scrollY) == 0
    ensures e.Animate? ==> animation && e.startY == scrollY
    ensures e.JumpTo? ==> !animation
  {
    if scrollY > 0 then
      if animation then Animate(scrollY, -scrollY) else JumpTo(0)
    else NoChange
  }

  /** scrollToBottom: acts only when above mMaxScrollY, and heads for it. */
  function BottomEffect(scrollY: int, maxScrollY: int, animation: bool): (e: ScrollEffect)
    ensures e == NoChange <==> maxScrollY <= scrollY
    ensures e != NoChange ==> Destination(e, scrollY) == maxScrollY
    ensures e.Animate? ==> animation && e.startY == scrollY
    ensures e.JumpTo? ==> !animation
  {
    if maxScrollY > scrollY then
      if animation then Animate(scrollY, maxScrollY - scrollY) else JumpTo(maxScrollY)
    else NoChange
  }

  /**
   * scrollToPosition: a position at or below 0 goes to the top, one at or
   * beyond mMaxScrollY to the bottom, anything in between is reached
   * exactly (even when it is the current offset).
   */
  function PositionEffect(position: int, scrollY: int, maxScrollY: int, animation: bool): (e: ScrollEffect)
    ensures e == NoChange <==>
      (position <= 0 && scrollY <= 0) || (0 < position && maxScrollY <= position && maxScrollY <= scrollY)
    ensures e != NoChange ==>
      Destination(e, scrollY) == (if position <= 0 then 0 else if position >= maxScrollY then maxScrollY else position)
    ensures e.Animate? ==> animation && e.startY == scrollY
    ensures e.JumpTo? ==> !animation
  {
    if position <= 0 then TopEffect(scrollY, animation)
    else if position >= maxScrollY then BottomEffect(scrollY, maxScrollY, animation)
    else if animation then Animate(scrollY, position - scrollY)
    else JumpTo(position)
  }

  /** Starting inside [0, mMaxScrollY], every programmatic scroll ends inside it. */
  lemma ScrollEffectsStayInRange(position: int, scrollY: int, maxScrollY: int, animation: bool)
    requires 0 <= scrollY <= maxScrollY
    ensures 0 <= Destination(TopEffect(scrollY, animation), scrollY) <= maxScrollY
    ensures 0 <= Destination(BottomEffect(scrollY, maxScrollY, animation), scrollY) <= maxScrollY
    ensures 0 <= Destination(PositionEffect(position, scrollY, maxScrollY, animation), scrollY) <= maxScrollY
  {
  }

  /** The index of the first row numbered `n`, or |rows| when there is none. */
  function FirstWithNumber(rows: seq<Row>, n: int): (k: nat)
    ensures k <= |rows|
    ensures forall j :: 0 <= j < k ==> rows[j].rowNumber != n
    ensures k < |rows| ==> rows[k].rowNumber == n
  {
    if rows == [] then 0
    else if rows[0].rowNumber == n then 0
    else 1 + FirstWithNumber(rows[1..], n)
  }

  /**
   * scrollToRowNumber's target offset: the heights of the rows up to and
   * including the first row numbered `n` (all rows when none is).
   */
  function RowScrollTarget(rows: seq<Row>, n: int): int
  {
    SumHeights(rows[..Min(FirstWithNumber(rows, n) + 1, |rows|)])
  }

  /**
   * On the rows of a measure pass, row number n (0 < n < total rows) is
   * the n-th row, so the target is the height of rows 1..n: row n + 1
   * ends up at the top of the content area.
   */
  lemma RowScrollTargetOfPack(f: Frame, cs: seq<Child>, n: int)
    requires |cs| > 0 && 0 < n < Pack(f, cs).totalRows
    ensures var rows := Pack(f, cs).rows;
      n < |rows| && RowScrollTarget(rows, n) == SumHeights(rows[..n])
  {
    PackRowNumbers(f, cs);
    var rows := Pack(f, cs).rows;
    var k := FirstWithNumber(rows, n);
    assert rows[n - 1].rowNumber == n;
    assert k == n - 1;
  }

  /** How one MOVE step of a drag by `dy` is resolved. */
  datatype Drag =
    | PassOn         // already at the edge the drag pushes against: the platform handles the event
    | SnapTo(y: int) // the step would overshoot: jump to the edge and keep the anchor
    | MoveBy(dy: int) // scroll by the full step and move the anchor

  /**
   * An upward finger motion (dy < 0) is refused at offset 0 and clipped at
   * 0; a downward one is refused at mMaxScrollY and clipped there.
   */
  function DragStep(scrollY: int, dy: int, maxScrollY: int): (d: Drag)
    ensures d.PassOn? <==> (dy < 0 && scrollY == 0) || (0 <= dy && scrollY == maxScrollY)
    ensures d.SnapTo? ==>
      (dy < 0 && scrollY + dy < 0 && d.y == 0) || (0 <= dy && scrollY + dy > maxScrollY && d.y == maxScrollY)
    ensures d.MoveBy? ==>
      d.dy == dy && (dy < 0 ==> 0 <= scrollY + dy) && (0 <= dy ==> scrollY + dy <= maxScrollY)
  {
    if dy < 0 then
      if scrollY == 0 then PassOn
      else if scrollY + dy < 0 then SnapTo(0)
      else MoveBy(dy)
    else
      if scrollY == maxScrollY then PassOn
      else if scrollY + dy > maxScrollY then SnapTo(maxScrollY)
      else MoveBy(dy)
  }

  /** The offset after a drag step. */
  function AfterDrag(scrollY: int, d: Drag): int
  {
    match d
    case PassOn => scrollY
    case SnapTo(y) => y
    case MoveBy(dy) => scrollY + dy
  }

  /** A drag step that starts inside [0, mMaxScrollY] stays inside it. */
  lemma DragStaysInRange(scrollY: int, dy: int, maxScrollY: int)
    requires 0 <= scrollY <= maxScrollY
    ensures 0 <= AfterDrag(scrollY, DragStep(scrollY, dy, maxScrollY)) <= maxScrollY
  {
  }

  /** A release flings only faster than 200 px/s, in the opposite direction of the finger. */
  function FlingVelocity(velocity: int): (r: Option<int>)
    ensures r.Some? <==> Abs(velocity) > 200
    ensures r.Some? ==> r.value == -velocity && Abs(r.value) > 200
  {
    if Abs(velocity) > 200 then Some(-velocity) else None
  }

  /** onInterceptTouchEvent: only MOVE is taken from the children, so taps reach them. */
  function Intercepts(action: Action): (r: bool)
    ensures action == Down || action == Up ==> !r
    ensures r <==> action == Move
  {
    action.Move?
  }
}

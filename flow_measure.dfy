/**
 * The row packer of FlowLayout.onMeasure, as a pure specification.
 *
 * The measure loop visits the adapter's children in index order with a
 * running row width, a running row height and an accumulated height; it
 * closes a row when the running width passes the content width and stops
 * altogether when the row that would open next is over the row limit.
 * `Step` is one iteration of that loop, `PackUpTo` the state after the
 * first `n` children and `Pack` the result once the last (possibly empty)
 * row has been appended. The lemmas at the end state what the pass
 * guarantees about the rows it produces.
 */
module FlowMeasure {
  import opened JavaInt

  /** One adapter item after `measureChild`: its measured size, margins and visibility. */
  datatype Child = Child(
    width: int, height: int,
    leftMargin: int, topMargin: int, rightMargin: int, bottomMargin: int,
    gone: bool)

  /** Horizontal space a child takes in its row, margins included. */
  function FullWidth(c: Child): int { c.width + c.leftMargin + c.rightMargin }

  /** Vertical space a child takes in its row, margins included. */
  function FullHeight(c: Child): int { c.height + c.topMargin + c.bottomMargin }

  /** A placed child (ChildViewInfo): its row, adapter position and rectangle. */
  datatype Placed = Placed(rowNumber: int, position: int, left: int, top: int, right: int, bottom: int)

  /** One row (RowChildViewInfo). */
  datatype Row = Row(rowNumber: int, rowHeight: int, usedWidth: int, children: seq<Placed>)

  /**
   * What a pass reads besides the children: the content width (width minus
   * horizontal padding), the left and top padding, and `mMaxRowCount`.
   */
  datatype Frame = Frame(contentWidth: int, paddingLeft: int, paddingTop: int, maxRowCount: int)

  /**
   * The loop's state: the closed rows, the children of the open row, the
   * running row width and height, the accumulated height, the row counter,
   * the number of placed children and whether the loop has broken out.
   */
  datatype Packing = Packing(
    rows: seq<Row>, current: seq<Placed>,
    rowWidth: int, rowMaxHeight: int, reallyHeight: int,
    totalRows: int, shown: nat, stopped: bool)

  /** The state before the first child: one open row, height = top padding. */
  function Start(f: Frame): Packing
  {
    Packing([], [], 0, 0, f.paddingTop, 1, 0, false)
  }

  /** The rectangle of a child whose row's running width, including it, is `rowWidth`. */
  function Place(f: Frame, c: Child, i: int, rowNumber: int, rowWidth: int, rowTop: int): Placed
  {
    var right := rowWidth - c.rightMargin + f.paddingLeft;
    var top := rowTop + c.topMargin;
    Placed(rowNumber, i, right - c.width, top, right, top + c.height)
  }

  /** One iteration of the measure loop, for child `c` at adapter position `i`. */
  function Step(f: Frame, st: Packing, c: Child, i: int): Packing
  {
    if st.stopped || c.gone then st
    else
      var fw := FullWidth(c);
      var width := st.rowWidth + fw;
      var maxH := Max(FullHeight(c), st.rowMaxHeight);
      if width > f.contentWidth then
        // the closed row's height already counts the wrapping child
        var closed := Row(st.totalRows, maxH, width - fw, st.current);
        var height := st.reallyHeight + maxH;
        if st.totalRows + 1 > f.maxRowCount then
          Packing(st.rows + [closed], [], fw, 0, height, st.totalRows, st.shown, true)
        else
          var rowNumber := st.totalRows + 1;
          Packing(st.rows + [closed], [Place(f, c, i, rowNumber, fw, height)],
                  fw, FullHeight(c), height, rowNumber, st.shown + 1, false)
      else
        Packing(st.rows, st.current + [Place(f, c, i, st.totalRows, width, st.reallyHeight)],
                width, maxH, st.reallyHeight, st.totalRows, st.shown + 1, false)
  }

  /** The loop state after the children at positions 0 .. n-1. */
  function PackUpTo(f: Frame, cs: seq<Child>, n: nat): Packing
    requires n <= |cs|
  {
    if n == 0 then Start(f) else Step(f, PackUpTo(f, cs, n - 1), cs[n - 1], n - 1)
  }

  /** The open row as the pass appends it after the loop. */
  function Open(st: Packing): Row
  {
    Row(st.totalRows, st.rowMaxHeight, st.rowWidth, st.current)
  }

  /** The closed rows followed by the open one. */
  function Rows(st: Packing): seq<Row>
  {
    st.rows + [Open(st)]
  }

  /**
   * The outcome of a full measure pass over a non-empty adapter:
   * mRowChildViewList, mShowChildViewCount, mTotalShowRowCount and the
   * content height before the bottom padding is added.
   */
  datatype Measured = Measured(rows: seq<Row>, shown: nat, totalRows: int, reallyHeight: int)

  function Pack(f: Frame, cs: seq<Child>): Measured
  {
    if |cs| == 0 then Measured([], 0, 0, f.paddingTop)
    else
      var st := PackUpTo(f, cs, |cs|);
      Measured(Rows(st), st.shown, st.totalRows, st.reallyHeight + st.rowMaxHeight)
  }

  // ---------------------------------------------------------------------
  // Reference definitions the properties are stated with

  /**
   * The positions of the non-GONE children among the first `n`, in
   * increasing order: the children a pass without a row limit places.
   */
  function Visible(cs: seq<Child>, n: nat): (vis: seq<int>)
    requires n <= |cs|
    ensures forall j :: 0 <= j < |vis| ==> 0 <= vis[j] < n && !cs[vis[j]].gone
    ensures forall j, k :: 0 <= j < k < |vis| ==> vis[j] < vis[k]
    ensures forall i :: 0 <= i < n && !cs[i].gone ==> i in vis
  {
    if n == 0 then []
    else Visible(cs, n - 1) + (if cs[n - 1].gone then [] else [n - 1])
  }

  /** Every one of the first `n` children is visible exactly when none of them is GONE. */
  lemma {:induction false} VisibleCount(cs: seq<Child>, n: nat)
    requires n <= |cs|
    ensures |Visible(cs, n)| <= n
    ensures |Visible(cs, n)| == n <==> forall i :: 0 <= i < n ==> !cs[i].gone
  {
    if n > 0 {
      VisibleCount(cs, n - 1);
      var before := Visible(cs, n - 1);
      if cs[n - 1].gone {
        assert |Visible(cs, n)| == |before| < n;
      } else {
        assert |Visible(cs, n)| == |before| + 1;
        assert (forall i :: 0 <= i < n ==> !cs[i].gone) <==> (forall i :: 0 <= i < n - 1 ==> !cs[i].gone);
      }
    }
  }

  /** All placed children, row after row. */
  function Placements(rows: seq<Row>): seq<Placed>
  {
    if rows == [] then [] else Placements(rows[..|rows| - 1]) + rows[|rows| - 1].children
  }

  function Positions(ps: seq<Placed>): (r: seq<int>)
    ensures |r| == |ps|
    ensures forall j :: 0 <= j < |ps| ==> r[j] == ps[j].position
  {
    seq(|ps|, j requires 0 <= j < |ps| => ps[j].position)
  }

  /** Total height of a sequence of rows. */
  function SumHeights(rows: seq<Row>): int
  {
    if rows == [] then 0 else SumHeights(rows[..|rows| - 1]) + rows[|rows| - 1].rowHeight
  }

  /** The pass stopped at the row limit before placing every visible child. */
  predicate Truncated(f: Frame, cs: seq<Child>)
  {
    Pack(f, cs).shown < |Visible(cs, |cs|)|
  }

  predicate InRange(cs: seq<Child>, row: Row)
  {
    forall j :: 0 <= j < |row.children| ==> 0 <= row.children[j].position < |cs|
  }

  /**
   * Child `j` of a row whose top is `rowTop`: it is a visible child, carries
   * the row's number, its rectangle has the child's measured size, sits
   * `topMargin` below the row's top, and the row is at least as tall as
   * the child with its margins.
   */
  predicate ChildFits(cs: seq<Child>, row: Row, j: int, rowTop: int)
    requires InRange(cs, row) && 0 <= j < |row.children|
  {
    var p := row.children[j];
    var c := cs[p.position];
    && !c.gone
    && p.rowNumber == row.rowNumber
    && p.right - p.left == c.width
    && p.top == rowTop + c.topMargin
    && p.bottom - p.top == c.height
    && FullHeight(c) <= row.rowHeight
  }

  /** Child `j` starts, margins included, exactly where child `j - 1` ends. */
  predicate Adjacent(cs: seq<Child>, row: Row, j: int)
    requires InRange(cs, row) && 0 < j < |row.children|
  {
    row.children[j].left - cs[row.children[j].position].leftMargin
      == row.children[j - 1].right + cs[row.children[j - 1].position].rightMargin
  }

  /** The row's width up to and including child `j`, margins included, measured from the left padding. */
  function RunningWidth(f: Frame, cs: seq<Child>, row: Row, j: int): int
    requires InRange(cs, row) && 0 <= j < |row.children|
  {
    row.children[j].right + cs[row.children[j].position].rightMargin - f.paddingLeft
  }

  /**
   * The shape of one row whose top edge is `rowTop`: every child fits, the
   * first child starts at the left padding plus its left margin, the others
   * follow each other without gaps, and a row of two or more children
   * uses no more than the content width.
   */
  predicate RowShape(f: Frame, cs: seq<Child>, row: Row, rowTop: int)
  {
    && InRange(cs, row)
    && (forall j :: 0 <= j < |row.children| ==> ChildFits(cs, row, j, rowTop))
    && (row.children != [] ==>
          row.children[0].left == f.paddingLeft + cs[row.children[0].position].leftMargin)
    && (forall j :: 0 < j < |row.children| ==> Adjacent(cs, row, j))
    && (|row.children| >= 2 ==> row.usedWidth <= f.contentWidth)
  }

  /** Every child after the first ends within the content width: adding it did not wrap the row. */
  predicate Fits(f: Frame, cs: seq<Child>, row: Row)
  {
    InRange(cs, row) && forall j :: 0 < j < |row.children| ==> RunningWidth(f, cs, row, j) <= f.contentWidth
  }

  /**
   * The first child of the row fits the content width too: true of row 1,
   * whose first child would otherwise have wrapped.
   */
  predicate LeadFits(f: Frame, cs: seq<Child>, row: Row)
  {
    InRange(cs, row) && (row.children != [] ==> RunningWidth(f, cs, row, 0) <= f.contentWidth)
  }

  /** The row's used width is the span of its children (0 for an empty row). */
  predicate SpansUsedWidth(f: Frame, cs: seq<Child>, row: Row)
  {
    && InRange(cs, row)
    && if row.children == [] then row.usedWidth == 0
       else row.usedWidth == RunningWidth(f, cs, row, |row.children| - 1)
  }

  /**
   * The largest full height among the children `ps` and `floor`: the value
   * a running row height that starts at `floor` reaches over `ps`.
   */
  function Tallest(cs: seq<Child>, ps: seq<Placed>, floor: int): (h: int)
    requires forall j :: 0 <= j < |ps| ==> 0 <= ps[j].position < |cs|
    ensures floor <= h
    ensures forall j :: 0 <= j < |ps| ==> FullHeight(cs[ps[j].position]) <= h
    ensures h == floor || exists j :: 0 <= j < |ps| && FullHeight(cs[ps[j].position]) == h
  {
    if ps == [] then floor
    else
      var h := Tallest(cs, ps[..|ps| - 1], floor);
      if h >= FullHeight(cs[ps[|ps| - 1].position]) then h
      else FullHeight(cs[ps[|ps| - 1].position])
  }

  /**
   * Where the running height of row `k` starts: 0 in the first row (the
   * pass starts from 0) and the opening child's full height in later rows.
   */
  function Floor(cs: seq<Child>, k: int, row: Row): int
    requires InRange(cs, row)
  {
    if k == 0 || row.children == [] then 0 else FullHeight(cs[row.children[0].position])
  }

  /** Row `k` is exactly as tall as the tallest of its children, counted from its floor. */
  predicate AsTallAsChildren(cs: seq<Child>, row: Row, k: int)
  {
    InRange(cs, row) && row.rowHeight == Tallest(cs, row.children, Floor(cs, k, row))
  }

  /**
   * Row `k` was closed by the child at position `w`: that child's full
   * width does not fit after the row's used width, and the row is exactly
   * as tall as the tallest of its own children and that child (and of 0,
   * in row 1).
   */
  predicate ClosedBy(f: Frame, cs: seq<Child>, row: Row, k: int, w: int)
  {
    && 0 <= w < |cs| && InRange(cs, row)
    && row.usedWidth + FullWidth(cs[w]) > f.contentWidth
    && row.rowHeight == Max(FullHeight(cs[w]), Tallest(cs, row.children, Floor(cs, k, row)))
  }

  // ---------------------------------------------------------------------
  // Invariants of the loop state

  /** Row counter, row numbers and the row limit. */
  ghost predicate Numbered(f: Frame, st: Packing)
  {
    && 1 <= st.totalRows <= Max(1, f.maxRowCount)
    && |st.rows| == (if st.stopped then st.totalRows else st.totalRows - 1)
    && (forall k :: 0 <= k < |st.rows| ==> st.rows[k].rowNumber == k + 1)
    && (st.stopped ==> st.totalRows == Max(1, f.maxRowCount) && st.current == [] && st.rowMaxHeight == 0)
  }

  /** Which children are placed, and in what order. */
  ghost predicate Counted(cs: seq<Child>, n: nat, st: Packing)
    requires n <= |cs|
  {
    var placed := Placements(st.rows) + st.current;
    var vis := Visible(cs, n);
    && st.shown == |placed| <= |vis|
    && Positions(placed) == vis[..st.shown]
    && (st.stopped <==> st.shown < |vis|)
    && (st.stopped ==> st.rowWidth == FullWidth(cs[vis[st.shown]]))
  }

  /** Every row of `rows` has its shape, each placed below the rows before it. */
  ghost predicate RowsShaped(f: Frame, cs: seq<Child>, rows: seq<Row>)
  {
    rows != [] ==>
      var above := rows[..|rows| - 1];
      RowsShaped(f, cs, above) && RowShape(f, cs, rows[|rows| - 1], f.paddingTop + SumHeights(above))
  }

  ghost predicate AllSpan(f: Frame, cs: seq<Child>, rows: seq<Row>)
  {
    forall k :: 0 <= k < |rows| ==> SpansUsedWidth(f, cs, rows[k])
  }

  /**
   * Every row after the first holds children, and the row before it was
   * closed by its first child.
   */
  ghost predicate Chained(f: Frame, cs: seq<Child>, rows: seq<Row>)
  {
    forall k :: 0 < k < |rows| ==>
      rows[k].children != [] && ClosedBy(f, cs, rows[k - 1], k - 1, rows[k].children[0].position)
  }

  /** Geometry of the closed rows and of the open row. */
  ghost predicate Shaped(f: Frame, cs: seq<Child>, st: Packing)
  {
    && st.reallyHeight == f.paddingTop + SumHeights(st.rows)
    && (st.current == [] ==> st.stopped || st.rows == [])
    && RowsShaped(f, cs, st.rows)
    && AllSpan(f, cs, st.rows)
    && RowShape(f, cs, Open(st), st.reallyHeight)
    && (!st.stopped ==> SpansUsedWidth(f, cs, Open(st)))
  }

  /**
   * How rows were closed: every child after the first of a row fits, row
   * 1 starts with a child that fits, every closed row was closed by the
   * first child of the next row, and the
   * running height is the tallest child of the open row from its floor.
   */
  ghost predicate Closing(f: Frame, cs: seq<Child>, st: Packing)
  {
    && InRange(cs, Open(st))
    && (st.current == [] ==> st.stopped || st.rows == [])
    && (forall k :: 0 <= k < |st.rows| ==> Fits(f, cs, st.rows[k]))
    && Fits(f, cs, Open(st))
    && LeadFits(f, cs, Rows(st)[0])
    && Chained(f, cs, st.rows)
    && (st.rows != [] && st.current != [] ==>
          ClosedBy(f, cs, st.rows[|st.rows| - 1], |st.rows| - 1, st.current[0].position))
    && AsTallAsChildren(cs, Open(st), |st.rows|)
  }

  /** After the break, the last closed row was closed by the first visible child left out. */
  ghost predicate Cut(f: Frame, cs: seq<Child>, n: nat, st: Packing)
    requires n <= |cs|
  {
    var vis := Visible(cs, n);
    st.stopped ==>
      st.shown < |vis| && st.rows != [] && ClosedBy(f, cs, st.rows[|st.rows| - 1], |st.rows| - 1, vis[st.shown])
  }

  ghost predicate PackInv(f: Frame, cs: seq<Child>, n: nat, st: Packing)
    requires n <= |cs|
  {
    Numbered(f, st) && Counted(cs, n, st) && Shaped(f, cs, st) && Closing(f, cs, st) && Cut(f, cs, n, st)
  }

  // ---------------------------------------------------------------------
  // Small facts about the reference definitions

  lemma PrefixOfAppend(rs: seq<Row>, extra: seq<Row>, k: nat)
    requires k <= |rs|
    ensures (rs + extra)[..k] == rs[..k]
  {
  }

  lemma PlacementsSnoc(rows: seq<Row>, r: Row)
    ensures Placements(rows + [r]) == Placements(rows) + r.children
  {
    assert (rows + [r])[..|rows + [r]| - 1] == rows;
  }

  lemma PositionsSnoc(ps: seq<Placed>, p: Placed)
    ensures Positions(ps + [p]) == Positions(ps) + [p.position]
  {
  }

  lemma SumHeightsSnoc(rows: seq<Row>, r: Row)
    ensures SumHeights(rows + [r]) == SumHeights(rows) + r.rowHeight
  {
    assert (rows + [r])[..|rows + [r]| - 1] == rows;
  }

  // ---------------------------------------------------------------------
  // One step keeps each invariant

  lemma StepNumbered(f: Frame, st: Packing, c: Child, i: int)
    requires Numbered(f, st)
    ensures Numbered(f, Step(f, st, c, i))
  {
  }

  /** Step case for `Counted`: the child is placed at the end of the open row or of a new one. */
  lemma StepCountedPlaced(f: Frame, cs: seq<Child>, n: nat, st: Packing)
    requires n < |cs| && !cs[n].gone
    requires Numbered(f, st) && Counted(cs, n, st)
    requires !Step(f, st, cs[n], n).stopped
    ensures Counted(cs, n + 1, Step(f, st, cs[n], n))
  {
    var st' := Step(f, st, cs[n], n);
    var vis, vis' := Visible(cs, n), Visible(cs, n + 1);
    var placed := Placements(st.rows) + st.current;
    var p := st'.current[|st'.current| - 1];
    assert vis' == vis + [n];
    if st.rowWidth + FullWidth(cs[n]) > f.contentWidth {
      var closed := Row(st.totalRows, Max(FullHeight(cs[n]), st.rowMaxHeight), st.rowWidth, st.current);
      assert st'.rows == st.rows + [closed] && st'.current == [p];
      PlacementsSnoc(st.rows, closed);
    } else {
      assert st'.rows == st.rows && st'.current == st.current + [p];
    }
    assert Placements(st'.rows) + st'.current == placed + [p];
    PositionsSnoc(placed, p);
    assert vis'[..st'.shown] == vis';
  }

  /** Step case for `Counted`: the child wraps past the row limit and the loop breaks. */
  lemma StepCountedBreak(f: Frame, cs: seq<Child>, n: nat, st: Packing)
    requires n < |cs| && !cs[n].gone && !st.stopped
    requires Numbered(f, st) && Counted(cs, n, st)
    requires Step(f, st, cs[n], n).stopped
    ensures Counted(cs, n + 1, Step(f, st, cs[n], n))
  {
    var st' := Step(f, st, cs[n], n);
    var vis, vis' := Visible(cs, n), Visible(cs, n + 1);
    var closed := Row(st.totalRows, Max(FullHeight(cs[n]), st.rowMaxHeight), st.rowWidth, st.current);
    assert vis' == vis + [n];
    assert st'.rows == st.rows + [closed] && st'.current == [];
    PlacementsSnoc(st.rows, closed);
    assert Placements(st'.rows) + st'.current == Placements(st.rows) + st.current;
    assert vis'[..st'.shown] == vis;
  }

  lemma StepCounted(f: Frame, cs: seq<Child>, n: nat, st: Packing, st': Packing)
    requires n < |cs|
    requires Numbered(f, st) && Counted(cs, n, st) && st' == Step(f, st, cs[n], n)
    ensures Counted(cs, n + 1, st')
  {
    var vis, vis' := Visible(cs, n), Visible(cs, n + 1);
    if cs[n].gone {
      assert vis' == vis;
    } else if st.stopped {
      assert vis' == vis + [n];
      assert vis'[..st.shown] == vis[..st.shown];
    } else if Step(f, st, cs[n], n).stopped {
      StepCountedBreak(f, cs, n, st);
    } else {
      StepCountedPlaced(f, cs, n, st);
    }
  }

  lemma RowsShapedSnoc(f: Frame, cs: seq<Child>, rows: seq<Row>, r: Row)
    requires RowsShaped(f, cs, rows)
    requires RowShape(f, cs, r, f.paddingTop + SumHeights(rows))
    ensures RowsShaped(f, cs, rows + [r])
  {
    assert (rows + [r])[..|rows|] == rows;
  }

  /** Row `k` of a shaped sequence sits below rows 0 .. k-1. */
  lemma {:induction false} RowsShapedAt(f: Frame, cs: seq<Child>, rows: seq<Row>, k: nat)
    requires RowsShaped(f, cs, rows) && k < |rows|
    ensures RowShape(f, cs, rows[k], f.paddingTop + SumHeights(rows[..k]))
  {
    var above := rows[..|rows| - 1];
    if k < |above| {
      RowsShapedAt(f, cs, above, k);
      assert above[..k] == rows[..k];
    }
  }

  lemma AllSpanSnoc(f: Frame, cs: seq<Child>, rows: seq<Row>, r: Row)
    requires AllSpan(f, cs, rows) && SpansUsedWidth(f, cs, r)
    ensures AllSpan(f, cs, rows + [r])
  {
  }

  lemma ChainedSnoc(f: Frame, cs: seq<Child>, rows: seq<Row>, r: Row)
    requires Chained(f, cs, rows)
    requires rows != [] ==>
      r.children != [] && ClosedBy(f, cs, rows[|rows| - 1], |rows| - 1, r.children[0].position)
    ensures Chained(f, cs, rows + [r])
  {
  }

  lemma TallestSnoc(cs: seq<Child>, ps: seq<Placed>, p: Placed, floor: int)
    requires forall j :: 0 <= j < |ps| ==> 0 <= ps[j].position < |cs|
    requires 0 <= p.position < |cs|
    ensures Tallest(cs, ps + [p], floor) == Max(FullHeight(cs[p.position]), Tallest(cs, ps, floor))
  {
    assert (ps + [p])[..|ps|] == ps;
  }

  /** The open row with child `c` appended, as the non-wrapping branch of `Step` leaves it. */
  function Extend(f: Frame, o: Row, c: Child, i: int, rowTop: int): Row
  {
    var width := o.usedWidth + FullWidth(c);
    Row(o.rowNumber, Max(FullHeight(c), o.rowHeight), width,
        o.children + [Place(f, c, i, o.rowNumber, width, rowTop)])
  }

  /** A fresh row holding only the wrapping child `c`. */
  function Fresh(f: Frame, c: Child, i: int, rowNumber: int, rowTop: int): Row
  {
    Row(rowNumber, FullHeight(c), FullWidth(c), [Place(f, c, i, rowNumber, FullWidth(c), rowTop)])
  }

  lemma ExtendShape(f: Frame, cs: seq<Child>, o: Row, n: nat, rowTop: int)
    requires n < |cs| && !cs[n].gone
    requires o.usedWidth + FullWidth(cs[n]) <= f.contentWidth
    requires RowShape(f, cs, o, rowTop) && SpansUsedWidth(f, cs, o)
    ensures RowShape(f, cs, Extend(f, o, cs[n], n, rowTop), rowTop)
    ensures SpansUsedWidth(f, cs, Extend(f, o, cs[n], n, rowTop))
  {
    var o' := Extend(f, o, cs[n], n, rowTop);
    assert InRange(cs, o');
    forall j | 0 <= j < |o'.children|
      ensures ChildFits(cs, o', j, rowTop)
    {
      if j < |o.children| {
        assert ChildFits(cs, o, j, rowTop);
      }
    }
    forall j | 0 < j < |o'.children|
      ensures Adjacent(cs, o', j)
    {
      if j < |o.children| {
        assert Adjacent(cs, o, j);
      }
    }
  }

  lemma TallerShape(f: Frame, cs: seq<Child>, o: Row, h: int, rowTop: int)
    requires h >= o.rowHeight
    requires RowShape(f, cs, o, rowTop)
    ensures RowShape(f, cs, o.(rowHeight := h), rowTop)
  {
    var o' := o.(rowHeight := h);
    assert InRange(cs, o');
    forall j | 0 <= j < |o'.children|
      ensures ChildFits(cs, o', j, rowTop)
    {
      assert ChildFits(cs, o, j, rowTop);
    }
    forall j | 0 < j < |o'.children|
      ensures Adjacent(cs, o', j)
    {
      assert Adjacent(cs, o, j);
    }
  }

  lemma FreshShape(f: Frame, cs: seq<Child>, n: nat, rowNumber: int, rowTop: int)
    requires n < |cs| && !cs[n].gone
    ensures RowShape(f, cs, Fresh(f, cs[n], n, rowNumber, rowTop), rowTop)
    ensures SpansUsedWidth(f, cs, Fresh(f, cs[n], n, rowNumber, rowTop))
  {
    var o := Fresh(f, cs[n], n, rowNumber, rowTop);
    assert ChildFits(cs, o, 0, rowTop);
  }

  /** Step case: the child fits in the open row. */
  lemma StepShapedAppend(f: Frame, cs: seq<Child>, n: nat, st: Packing, st': Packing)
    requires n < |cs| && !cs[n].gone && !st.stopped
    requires st.rowWidth + FullWidth(cs[n]) <= f.contentWidth
    requires Shaped(f, cs, st) && st' == Step(f, st, cs[n], n)
    ensures Shaped(f, cs, st')
  {
    assert Open(st') == Extend(f, Open(st), cs[n], n, st.reallyHeight);
    ExtendShape(f, cs, Open(st), n, st.reallyHeight);
  }

  /** The row the wrap branch of `Step` closes: the open row, grown to the wrapping child's height. */
  function Closed(st: Packing, c: Child): Row
  {
    Open(st).(rowHeight := Max(FullHeight(c), st.rowMaxHeight))
  }

  /** Step case: the child wraps; the open row closes, and a new one opens or the pass stops. */
  lemma StepShapedWrap(f: Frame, cs: seq<Child>, n: nat, st: Packing, st': Packing)
    requires n < |cs| && !cs[n].gone && !st.stopped
    requires st.rowWidth + FullWidth(cs[n]) > f.contentWidth
    requires Shaped(f, cs, st) && st' == Step(f, st, cs[n], n)
    ensures Shaped(f, cs, st')
  {
    var c := cs[n];
    var closed := Closed(st, c);
    assert st'.rows == st.rows + [closed];
    SumHeightsSnoc(st.rows, closed);
    TallerShape(f, cs, Open(st), closed.rowHeight, st.reallyHeight);
    RowsShapedSnoc(f, cs, st.rows, closed);
    AllSpanSnoc(f, cs, st.rows, closed);
    if !st'.stopped {
      assert Open(st') == Fresh(f, c, n, st'.totalRows, st'.reallyHeight);
      FreshShape(f, cs, n, st'.totalRows, st'.reallyHeight);
    }
  }

  lemma StepShaped(f: Frame, cs: seq<Child>, n: nat, st: Packing, st': Packing)
    requires n < |cs|
    requires Shaped(f, cs, st) && st' == Step(f, st, cs[n], n)
    ensures Shaped(f, cs, st')
  {
    if !st.stopped && !cs[n].gone {
      if st.rowWidth + FullWidth(cs[n]) > f.contentWidth {
        StepShapedWrap(f, cs, n, st, st');
      } else {
        StepShapedAppend(f, cs, n, st, st');
      }
    }
  }

  /** The row the wrap branch closes was closed by the wrapping child. */
  lemma CloseRow(f: Frame, cs: seq<Child>, n: nat, st: Packing)
    requires n < |cs| && !st.stopped
    requires st.rowWidth + FullWidth(cs[n]) > f.contentWidth
    requires AsTallAsChildren(cs, Open(st), |st.rows|)
    ensures ClosedBy(f, cs, Closed(st, cs[n]), |st.rows|, n)
  {
    assert Closed(st, cs[n]).children == Open(st).children;
  }

  /** Step case for `Closing`: the child fits in the open row. */
  /** Appending a child that fits keeps every child after the first within the content width. */
  lemma ExtendFits(f: Frame, cs: seq<Child>, o: Row, n: nat, rowTop: int)
    requires n < |cs| && Fits(f, cs, o)
    requires o.usedWidth + FullWidth(cs[n]) <= f.contentWidth
    ensures Fits(f, cs, Extend(f, o, cs[n], n, rowTop))
    ensures LeadFits(f, cs, o) ==> LeadFits(f, cs, Extend(f, o, cs[n], n, rowTop))
  {
    var o' := Extend(f, o, cs[n], n, rowTop);
    assert RunningWidth(f, cs, o', |o.children|) == o.usedWidth + FullWidth(cs[n]);
    forall j | 0 <= j < |o.children|
      ensures RunningWidth(f, cs, o', j) == RunningWidth(f, cs, o, j)
    {
    }
  }

  /** Appending a child keeps the running height equal to the tallest child from the row's floor. */
  lemma ExtendTallest(f: Frame, cs: seq<Child>, o: Row, n: nat, rowTop: int, k: int)
    requires n < |cs| && AsTallAsChildren(cs, o, k)
    requires o.children == [] ==> k == 0
    ensures AsTallAsChildren(cs, Extend(f, o, cs[n], n, rowTop), k)
  {
    var o' := Extend(f, o, cs[n], n, rowTop);
    var p := o'.children[|o.children|];
    assert o'.children == o.children + [p];
    assert Floor(cs, k, o') == Floor(cs, k, o) by {
      if o.children != [] {
        assert o'.children[0] == o.children[0];
      }
    }
    TallestSnoc(cs, o.children, p, Floor(cs, k, o));
  }

  /** Step case for `Closing`: the child fits in the open row. */
  lemma StepClosingAppend(f: Frame, cs: seq<Child>, n: nat, st: Packing, st': Packing)
    requires n < |cs| && !cs[n].gone && !st.stopped
    requires st.rowWidth + FullWidth(cs[n]) <= f.contentWidth
    requires Closing(f, cs, st) && st' == Step(f, st, cs[n], n)
    ensures Closing(f, cs, st')
  {
    var o := Open(st);
    assert Open(st') == Extend(f, o, cs[n], n, st.reallyHeight);
    assert st'.rows == st.rows;
    ExtendTallest(f, cs, o, n, st.reallyHeight, |st.rows|);
    if st.rows == [] {
      assert Rows(st)[0] == o;
      assert Rows(st')[0] == Open(st');
      ExtendFits(f, cs, o, n, st.reallyHeight);
    } else {
      assert Rows(st')[0] == Rows(st)[0];
      ExtendFits(f, cs, o, n, st.reallyHeight);
      assert st'.current[0] == st.current[0];
    }
  }

  /** Step case for `Closing`: the child wraps. */
  lemma StepClosingWrap(f: Frame, cs: seq<Child>, n: nat, st: Packing, st': Packing)
    requires n < |cs| && !cs[n].gone && !st.stopped
    requires st.rowWidth + FullWidth(cs[n]) > f.contentWidth
    requires Closing(f, cs, st) && st' == Step(f, st, cs[n], n)
    ensures Closing(f, cs, st')
  {
    var c := cs[n];
    var closed := Closed(st, c);
    assert st'.rows == st.rows + [closed];
    CloseRow(f, cs, n, st);
    ChainedSnoc(f, cs, st.rows, closed);
    assert Rows(st')[0] == if st.rows == [] then closed else st.rows[0];
    forall j | 0 <= j < |closed.children|
      ensures RunningWidth(f, cs, closed, j) == RunningWidth(f, cs, Open(st), j)
    {
    }
  }

  lemma StepClosing(f: Frame, cs: seq<Child>, n: nat, st: Packing, st': Packing)
    requires n < |cs|
    requires Closing(f, cs, st) && st' == Step(f, st, cs[n], n)
    ensures Closing(f, cs, st')
  {
    if !st.stopped && !cs[n].gone {
      if st.rowWidth + FullWidth(cs[n]) > f.contentWidth {
        StepClosingWrap(f, cs, n, st, st');
      } else {
        StepClosingAppend(f, cs, n, st, st');
      }
    }
  }

  /** Step case for `Cut`: the child wraps past the row limit, so the row it closed ends the list. */
  lemma StepCutBreak(f: Frame, cs: seq<Child>, n: nat, st: Packing, st': Packing)
    requires n < |cs| && !st.stopped && st.shown == |Visible(cs, n)|
    requires AsTallAsChildren(cs, Open(st), |st.rows|)
    requires st' == Step(f, st, cs[n], n) && st'.stopped
    ensures Cut(f, cs, n + 1, st')
  {
    var vis' := Visible(cs, n + 1);
    assert !cs[n].gone && st.rowWidth + FullWidth(cs[n]) > f.contentWidth;
    assert vis' == Visible(cs, n) + [n];
    assert vis'[st'.shown] == n;
    CloseRow(f, cs, n, st);
    assert st'.rows == st.rows + [Closed(st, cs[n])];
  }

  lemma StepCut(f: Frame, cs: seq<Child>, n: nat, st: Packing, st': Packing)
    requires n < |cs|
    requires !st.stopped ==> st.shown == |Visible(cs, n)|
    requires AsTallAsChildren(cs, Open(st), |st.rows|) && Cut(f, cs, n, st)
    requires st' == Step(f, st, cs[n], n)
    ensures Cut(f, cs, n + 1, st')
  {
    if st.stopped {
      var vis, vis' := Visible(cs, n), Visible(cs, n + 1);
      assert vis' == vis + (if cs[n].gone then [] else [n]);
      assert vis'[st.shown] == vis[st.shown];
    } else if st'.stopped {
      StepCutBreak(f, cs, n, st, st');
    }
  }

  lemma {:induction false} PackUpToNumbered(f: Frame, cs: seq<Child>, n: nat)
    requires n <= |cs|
    ensures Numbered(f, PackUpTo(f, cs, n))
  {
    if n > 0 {
      PackUpToNumbered(f, cs, n - 1);
      StepNumbered(f, PackUpTo(f, cs, n - 1), cs[n - 1], n - 1);
      assert PackUpTo(f, cs, n) == Step(f, PackUpTo(f, cs, n - 1), cs[n - 1], n - 1);
    }
  }

  lemma {:induction false} PackUpToCounted(f: Frame, cs: seq<Child>, n: nat)
    requires n <= |cs|
    ensures Counted(cs, n, PackUpTo(f, cs, n))
  {
    if n > 0 {
      PackUpToCounted(f, cs, n - 1);
      PackUpToNumbered(f, cs, n - 1);
      StepCounted(f, cs, n - 1, PackUpTo(f, cs, n - 1), PackUpTo(f, cs, n));
    }
  }

  lemma {:induction false} PackUpToShaped(f: Frame, cs: seq<Child>, n: nat)
    requires n <= |cs|
    ensures Shaped(f, cs, PackUpTo(f, cs, n))
  {
    if n > 0 {
      var st := PackUpTo(f, cs, n - 1);
      PackUpToShaped(f, cs, n - 1);
      StepShaped(f, cs, n - 1, st, PackUpTo(f, cs, n));
    }
  }

  lemma {:induction false} PackUpToClosing(f: Frame, cs: seq<Child>, n: nat)
    requires n <= |cs|
    ensures Closing(f, cs, PackUpTo(f, cs, n))
  {
    if n == 0 {
      assert Rows(Start(f))[0] == Row(1, 0, 0, []);
    } else {
      var st := PackUpTo(f, cs, n - 1);
      PackUpToClosing(f, cs, n - 1);
      StepClosing(f, cs, n - 1, st, PackUpTo(f, cs, n));
    }
  }

  lemma PackUpToShown(f: Frame, cs: seq<Child>, n: nat)
    requires n <= |cs|
    ensures !PackUpTo(f, cs, n).stopped ==> PackUpTo(f, cs, n).shown == |Visible(cs, n)|
  {
    PackUpToCounted(f, cs, n);
  }

  lemma PackUpToTallest(f: Frame, cs: seq<Child>, n: nat)
    requires n <= |cs|
    ensures AsTallAsChildren(cs, Open(PackUpTo(f, cs, n)), |PackUpTo(f, cs, n).rows|)
  {
    PackUpToClosing(f, cs, n);
  }

  lemma {:induction false} PackUpToCut(f: Frame, cs: seq<Child>, n: nat)
    requires n <= |cs|
    ensures Cut(f, cs, n, PackUpTo(f, cs, n))
  {
    if n > 0 {
      var st := PackUpTo(f, cs, n - 1);
      PackUpToCut(f, cs, n - 1);
      PackUpToShown(f, cs, n - 1);
      PackUpToTallest(f, cs, n - 1);
      StepCut(f, cs, n - 1, PackUpTo(f, cs, n - 1), PackUpTo(f, cs, n));
    }
  }

  /** Every loop state satisfies the five invariants. */
  lemma PackUpToInv(f: Frame, cs: seq<Child>, n: nat)
    requires n <= |cs|
    ensures PackInv(f, cs, n, PackUpTo(f, cs, n))
  {
    PackUpToNumbered(f, cs, n);
    PackUpToCounted(f, cs, n);
    PackUpToShaped(f, cs, n);
    PackUpToClosing(f, cs, n);
    PackUpToCut(f, cs, n);
  }

  // ---------------------------------------------------------------------
  // What a measure pass guarantees

  lemma PackState(f: Frame, cs: seq<Child>)
    requires |cs| > 0
    ensures var st := PackUpTo(f, cs, |cs|);
      && PackInv(f, cs, |cs|, st)
      && Pack(f, cs).rows == st.rows + [Open(st)]
      && (Truncated(f, cs) <==> st.stopped)
  {
    PackUpToInv(f, cs, |cs|);
  }

  /** The rows of a non-empty pass are the rows of the final loop state. */
  lemma PackRows(f: Frame, cs: seq<Child>)
    requires |cs| > 0
    ensures Pack(f, cs).rows == Rows(PackUpTo(f, cs, |cs|))
  {
  }

  lemma TruncatedIsStopped(f: Frame, cs: seq<Child>)
    requires |cs| > 0
    ensures Truncated(f, cs) <==> PackUpTo(f, cs, |cs|).stopped
  {
    PackUpToInv(f, cs, |cs|);
  }

  /** The geometry invariant of the final loop state, on its own. */
  lemma PackShaped(f: Frame, cs: seq<Child>)
    requires |cs| > 0
    ensures Shaped(f, cs, PackUpTo(f, cs, |cs|))
  {
    PackUpToShaped(f, cs, |cs|);
  }

  /** How the rows of the final loop state were closed, on its own. */
  lemma PackClosing(f: Frame, cs: seq<Child>)
    requires |cs| > 0
    ensures Closing(f, cs, PackUpTo(f, cs, |cs|))
  {
    PackUpToClosing(f, cs, |cs|);
  }

  /**
   * The row limit: at least one and at most max(1, mMaxRowCount) rows are
   * counted, and a pass that leaves a visible child out has reached exactly
   * that limit.
   */
  lemma PackRowLimit(f: Frame, cs: seq<Child>)
    requires |cs| > 0
    ensures 1 <= Pack(f, cs).totalRows <= Max(1, f.maxRowCount)
    ensures Truncated(f, cs) ==> Pack(f, cs).totalRows == Max(1, f.maxRowCount)
  {
    PackState(f, cs);
  }

  /** Every child in the rows of a loop state carries its row's number. */
  lemma StateChildRowNumbers(f: Frame, cs: seq<Child>, st: Packing)
    requires Shaped(f, cs, st)
    ensures forall k, j :: 0 <= k < |Rows(st)| && 0 <= j < |Rows(st)[k].children| ==>
      Rows(st)[k].children[j].rowNumber == Rows(st)[k].rowNumber
  {
    var rs := Rows(st);
    RowsShapedSnoc(f, cs, st.rows, Open(st));
    forall k, j | 0 <= k < |rs| && 0 <= j < |rs[k].children|
      ensures rs[k].children[j].rowNumber == rs[k].rowNumber
    {
      RowsShapedAt(f, cs, rs, k);
      assert ChildFits(cs, rs[k], j, f.paddingTop + SumHeights(rs[..k]));
    }
  }

  /**
   * Rows are numbered 1, 2, ... in order and every child carries its row's
   * number. Without truncation the last row is number mTotalShowRowCount;
   * with it, one extra row repeating the last number trails the list.
   */
  lemma PackRowNumbers(f: Frame, cs: seq<Child>)
    requires |cs| > 0
    ensures var m := Pack(f, cs);
      && |m.rows| == (if Truncated(f, cs) then m.totalRows + 1 else m.totalRows)
      && (forall k :: 0 <= k < |m.rows| - 1 ==> m.rows[k].rowNumber == k + 1)
      && m.rows[|m.rows| - 1].rowNumber == m.totalRows
      && (forall k, j :: 0 <= k < |m.rows| && 0 <= j < |m.rows[k].children| ==>
            m.rows[k].children[j].rowNumber == m.rows[k].rowNumber)
  {
    PackState(f, cs);
    StateChildRowNumbers(f, cs, PackUpTo(f, cs, |cs|));
  }

  /**
   * The placed children are exactly the visible ones, in index order, up to
   * the first one the row limit cut off; mShowChildViewCount counts them.
   * Without truncation every non-GONE child is placed.
   */
  lemma PackPlacesVisibleInOrder(f: Frame, cs: seq<Child>)
    ensures var m := Pack(f, cs);
      && m.shown == |Placements(m.rows)| <= |Visible(cs, |cs|)|
      && Positions(Placements(m.rows)) == Visible(cs, |cs|)[..m.shown]
      && (!Truncated(f, cs) ==> Positions(Placements(m.rows)) == Visible(cs, |cs|))
  {
    if |cs| > 0 {
      PackState(f, cs);
      var st := PackUpTo(f, cs, |cs|);
      PlacementsSnoc(st.rows, Open(st));
    }
  }

  /**
   * After truncation the row list still ends with a row that holds no
   * child, is 0 high, repeats the previous row number and records as used
   * width the full width of the first child that was not placed; that
   * child is the one that closed the last counted row.
   */
  lemma PackTruncationTail(f: Frame, cs: seq<Child>)
    requires Truncated(f, cs)
    ensures var m := Pack(f, cs);
      && |m.rows| >= 2
      && m.shown < |Visible(cs, |cs|)|
      && var tail := m.rows[|m.rows| - 1];
      && tail.children == [] && tail.rowHeight == 0
      && tail.rowNumber == m.rows[|m.rows| - 2].rowNumber == m.totalRows
      && tail.usedWidth == FullWidth(cs[Visible(cs, |cs|)[m.shown]])
      && ClosedBy(f, cs, m.rows[|m.rows| - 2], |m.rows| - 2, Visible(cs, |cs|)[m.shown])
  {
    PackState(f, cs);
    var st := PackUpTo(f, cs, |cs|);
    assert Pack(f, cs).rows[|st.rows| - 1] == st.rows[|st.rows| - 1];
  }

  /** The shape of row `k` of a loop state, from the invariant. */
  lemma StateRowShape(f: Frame, cs: seq<Child>, st: Packing, k: nat)
    requires RowsShaped(f, cs, st.rows) && RowShape(f, cs, Open(st), st.reallyHeight)
    requires st.reallyHeight == f.paddingTop + SumHeights(st.rows)
    requires k < |Rows(st)|
    ensures RowShape(f, cs, Rows(st)[k], f.paddingTop + SumHeights(Rows(st)[..k]))
  {
    var rs := Rows(st);
    if k < |st.rows| {
      RowsShapedAt(f, cs, st.rows, k);
      assert rs[k] == st.rows[k] && rs[..k] == st.rows[..k];
    } else {
      assert rs[k] == Open(st) && rs[..k] == st.rows;
    }
  }

  /** Row `k` of a loop state was closed by the first child of row `k + 1`. */
  lemma StateClosedBy(f: Frame, cs: seq<Child>, st: Packing, k: nat)
    requires Chained(f, cs, st.rows)
    requires st.rows != [] && st.current != [] ==>
      ClosedBy(f, cs, st.rows[|st.rows| - 1], |st.rows| - 1, st.current[0].position)
    requires k + 1 < |Rows(st)| && Rows(st)[k + 1].children != []
    ensures ClosedBy(f, cs, Rows(st)[k], k, Rows(st)[k + 1].children[0].position)
  {
    var rs := Rows(st);
    if k + 1 < |st.rows| {
      assert rs[k] == st.rows[k] && rs[k + 1] == st.rows[k + 1];
    } else {
      assert rs[k] == st.rows[|st.rows| - 1] && rs[k + 1] == Open(st);
    }
  }

  lemma PackRowShape(f: Frame, cs: seq<Child>, k: nat)
    requires k < |Pack(f, cs).rows|
    ensures RowShape(f, cs, Pack(f, cs).rows[k], f.paddingTop + SumHeights(Pack(f, cs).rows[..k]))
  {
    var st := PackUpTo(f, cs, |cs|);
    PackShaped(f, cs);
    StateRowShape(f, cs, st, k);
  }

  lemma PackLeadFits(f: Frame, cs: seq<Child>)
    requires |cs| > 0
    ensures LeadFits(f, cs, Pack(f, cs).rows[0])
  {
    PackClosing(f, cs);
  }

  lemma PackSpans(f: Frame, cs: seq<Child>, k: nat)
    requires k < |Pack(f, cs).rows|
    requires k < |Pack(f, cs).rows| - 1 || !Truncated(f, cs)
    ensures SpansUsedWidth(f, cs, Pack(f, cs).rows[k])
  {
    TruncatedIsStopped(f, cs);
    PackShaped(f, cs);
  }

  lemma PackClosedBy(f: Frame, cs: seq<Child>, k: nat)
    requires k + 1 < |Pack(f, cs).rows| && Pack(f, cs).rows[k + 1].children != []
    ensures ClosedBy(f, cs, Pack(f, cs).rows[k], k, Pack(f, cs).rows[k + 1].children[0].position)
  {
    PackClosing(f, cs);
    StateClosedBy(f, cs, PackUpTo(f, cs, |cs|), k);
  }

  /**
   * Every row without children after row 1 is the tail row that a break
   * leaves behind. Row 1 itself can be empty and still be followed by a
   * non-empty row: an oversized first child (see OversizedFirstChild).
   */
  lemma PackEmptyRow(f: Frame, cs: seq<Child>, k: nat)
    requires k + 1 < |Pack(f, cs).rows| && Pack(f, cs).rows[k + 1].children == []
    ensures Truncated(f, cs) && k + 2 == |Pack(f, cs).rows|
  {
    TruncatedIsStopped(f, cs);
    PackClosing(f, cs);
    var st := PackUpTo(f, cs, |cs|);
    assert forall j :: 0 < j < |st.rows| ==> Rows(st)[j].children != [];
  }

  lemma PackFits(f: Frame, cs: seq<Child>, k: nat)
    requires k < |Pack(f, cs).rows|
    ensures Fits(f, cs, Pack(f, cs).rows[k])
  {
    PackClosing(f, cs);
    var st := PackUpTo(f, cs, |cs|);
    if k < |st.rows| {
      assert Pack(f, cs).rows[k] == st.rows[k];
    }
  }

  lemma PackLastHeight(f: Frame, cs: seq<Child>)
    requires |cs| > 0
    ensures AsTallAsChildren(cs, Pack(f, cs).rows[|Pack(f, cs).rows| - 1], |Pack(f, cs).rows| - 1)
  {
    PackClosing(f, cs);
  }

  lemma PackHeight(f: Frame, cs: seq<Child>)
    requires |cs| > 0
    ensures Pack(f, cs).reallyHeight == f.paddingTop + SumHeights(Pack(f, cs).rows)
  {
    var st := PackUpTo(f, cs, |cs|);
    PackShaped(f, cs);
    SumHeightsSnoc(st.rows, Open(st));
  }

  /**
   * Row `k` of a pass: its children have their measured sizes and sit
   * side by side from the left padding, `topMargin` below the row's top,
   * which is the top padding plus the heights of the rows above; every
   * child after the first of a row, and the first child of row 1, ends
   * within the content width; the used width is the span of the children
   * (except on a truncation tail); a row is closed by the first child of
   * the next row, which does not fit after it, and is exactly as tall as
   * the tallest of its own children and that child; the last row is as
   * tall as its tallest child; and the content height is the top padding
   * plus all row heights.
   */
  lemma PackGeometry(f: Frame, cs: seq<Child>, k: nat)
    requires k < |Pack(f, cs).rows|
    ensures var m := Pack(f, cs);
      && RowShape(f, cs, m.rows[k], f.paddingTop + SumHeights(m.rows[..k]))
      && Fits(f, cs, m.rows[k])
      && LeadFits(f, cs, m.rows[0])
      && (k < |m.rows| - 1 || !Truncated(f, cs) ==> SpansUsedWidth(f, cs, m.rows[k]))
      && (k + 1 < |m.rows| && m.rows[k + 1].children != [] ==>
            ClosedBy(f, cs, m.rows[k], k, m.rows[k + 1].children[0].position))
      && (k + 1 < |m.rows| && m.rows[k + 1].children == [] ==> Truncated(f, cs) && k + 2 == |m.rows|)
      && (k + 1 == |m.rows| ==> AsTallAsChildren(cs, m.rows[k], k))
      && m.reallyHeight == f.paddingTop + SumHeights(m.rows)
  {
    PackRowShape(f, cs, k);
    PackFits(f, cs, k);
    PackLeadFits(f, cs);
    if k < |Pack(f, cs).rows| - 1 || !Truncated(f, cs) {
      PackSpans(f, cs, k);
    }
    if k + 1 < |Pack(f, cs).rows| {
      if Pack(f, cs).rows[k + 1].children != [] {
        PackClosedBy(f, cs, k);
      } else {
        PackEmptyRow(f, cs, k);
      }
    } else {
      PackLastHeight(f, cs);
    }
    PackHeight(f, cs);
  }

  /** Once the loop has broken out, later children change nothing. */
  lemma {:induction false} StoppedStays(f: Frame, cs: seq<Child>, m: nat, n: nat)
    requires m <= n <= |cs| && PackUpTo(f, cs, m).stopped
    ensures PackUpTo(f, cs, n) == PackUpTo(f, cs, m)
  {
    if m < n {
      StoppedStays(f, cs, m, n - 1);
    }
  }

  /** While the loop runs, a row limit that the rows never reach plays no part. */
  lemma {:induction false} UnreachedLimit(f: Frame, cs: seq<Child>, limit: int, n: nat)
    requires n <= |cs|
    requires !PackUpTo(f, cs, n).stopped && limit >= PackUpTo(f, cs, n).totalRows
    ensures PackUpTo(f.(maxRowCount := limit), cs, n) == PackUpTo(f, cs, n)
  {
    if n > 0 {
      var st := PackUpTo(f, cs, n - 1);
      assert !st.stopped && st.totalRows <= PackUpTo(f, cs, n).totalRows;
      UnreachedLimit(f, cs, limit, n - 1);
    }
  }

  /**
   * A row limit at least as large as the rows an untruncated pass needs
   * gives the same pass: mMaxRowCount = Integer.MAX_VALUE and any such K
   * are interchangeable.
   */
  lemma LargeLimitIsNoOp(f: Frame, cs: seq<Child>, limit: int)
    requires !Truncated(f, cs) && limit >= Pack(f, cs).totalRows
    ensures Pack(f.(maxRowCount := limit), cs) == Pack(f, cs)
  {
    if |cs| > 0 {
      PackState(f, cs);
      UnreachedLimit(f, cs, limit, |cs|);
    }
  }

  /** Rows, once closed, are never changed: later iterations only append rows. */
  lemma {:induction false} ClosedRowsStay(f: Frame, cs: seq<Child>, m: nat, n: nat)
    requires m <= n <= |cs|
    ensures |PackUpTo(f, cs, m).rows| <= |PackUpTo(f, cs, n).rows|
    ensures PackUpTo(f, cs, n).rows[..|PackUpTo(f, cs, m).rows|] == PackUpTo(f, cs, m).rows
  {
    if m < n {
      ClosedRowsStay(f, cs, m, n - 1);
      var early, before, after := PackUpTo(f, cs, m).rows, PackUpTo(f, cs, n - 1).rows, PackUpTo(f, cs, n).rows;
      assert after[..|before|] == before;
      assert after[..|early|] == after[..|before|][..|early|];
    }
  }

  /**
   * The wrap test does not ask whether the open row holds anything: a
   * first child wider than the content area closes an empty row 1 (0 wide,
   * as tall as that child) and goes to row 2, or is cut off when the row
   * limit is 1.
   */
  lemma OversizedFirstChild(f: Frame, cs: seq<Child>)
    requires |cs| > 0 && !cs[0].gone && FullWidth(cs[0]) > f.contentWidth
    ensures var rows := Pack(f, cs).rows;
      |rows| >= 2 && rows[0] == Row(1, Max(FullHeight(cs[0]), 0), 0, [])
  {
    ClosedRowsStay(f, cs, 1, |cs|);
    assert PackUpTo(f, cs, 1).rows == [Row(1, Max(FullHeight(cs[0]), 0), 0, [])];
  }
}

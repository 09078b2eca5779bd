/**
 * The short-circuit rules of FlowLayout.setMaxRowCount, and why the
 * "all children shown" shortcut is sound with respect to the measure pass.
 */
module FlowConfig {
  import opened JavaInt
  import opened FlowMeasure

  /**
   * setMaxRowCount(v) returns without any effect when v is the stored
   * value, when both are negative, or when every child is shown and v
   * either exceeds the rows in use or asks for "all rows" (v < 0).
   */
  predicate MaxRowCountIgnored(v: int, current: int, allShow: bool, totalRows: int)
  {
    v == current || (v < 0 && current < 0) || (allShow && v > totalRows) || (allShow && v < 0)
  }

  /** The value setMaxRowCount stores: a negative request means Integer.MAX_VALUE. */
  function StoredMaxRowCount(v: int): (s: int)
    ensures 0 <= s
    ensures 0 <= v ==> s == v
    ensures v < 0 ==> s == IntMax
  {
    if v < 0 then IntMax else v
  }

  /**
   * Repeating setMaxRowCount(v) right after it took effect is ignored
   * exactly when v is non-negative or every child is shown: a negative v
   * was stored as Integer.MAX_VALUE, so it matches neither the equality
   * nor the "both negative" rule and triggers another relayout.
   */
  lemma RepeatedMaxRowCount(v: int, allShow: bool, totalRows: int)
    requires 0 <= totalRows
    ensures MaxRowCountIgnored(v, StoredMaxRowCount(v), allShow, totalRows) <==> (0 <= v || allShow)
  {
  }

  /**
   * mChildViewAllShow (item count == shown count) holds exactly when the
   * pass was not cut off by the row limit and no child is GONE: a GONE
   * child makes it false even though every visible child is placed.
   */
  lemma AllShowMeaning(f: Frame, cs: seq<Child>)
    ensures Pack(f, cs).shown == |cs| <==> !Truncated(f, cs) && forall i :: 0 <= i < |cs| ==> !cs[i].gone
  {
    PackPlacesVisibleInOrder(f, cs);
    VisibleCount(cs, |cs|);
  }

  /**
   * The shortcut is sound: when every child is shown, any limit above the
   * rows in use gives the same measure pass, so skipping the relayout
   * loses nothing.
   */
  lemma AllShowSkipIsSound(f: Frame, cs: seq<Child>, v: int)
    requires Pack(f, cs).shown == |cs| && v > Pack(f, cs).totalRows
    ensures Pack(f.(maxRowCount := v), cs) == Pack(f, cs)
  {
    AllShowMeaning(f, cs);
    LargeLimitIsNoOp(f, cs, v);
  }
}

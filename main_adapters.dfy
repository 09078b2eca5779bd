/**
 * The demo app's adapters. Each keeps a nullable list of labels (lists are
 * values here: a list passed in is copied, never shared) and counts its
 * notifyChange() calls, each of which asks the attached layout to lay
 * itself out again.
 */
module MainAdapters {
  import opened JavaInt
  import opened AppUtils

  /** What getItem yields: null, the element, or an IndexOutOfBoundsException. */
  datatype ItemResult = NullItem | Item(value: string) | OutOfBounds

  class MainFlowLayoutAdapter {
    var dataList: Option<seq<string>>
    var checkedPosition: int       // mCheckedPosition, -1 for none
    var notifications: nat         // notifyChange() calls

    constructor (datas: Option<seq<string>>)
      ensures dataList == datas && checkedPosition == -1 && notifications == 0
    {
      dataList := datas;
      checkedPosition := -1;
      notifications := 0;
    }

    /**
     * Tapping the checked item unchecks it, tapping another one checks it
     * instead: afterwards at most that one item is highlighted.
     */
    method SetCheckedPosition(p: int)
      modifies this`checkedPosition, this`notifications
      ensures checkedPosition == (if old(checkedPosition) == p then -1 else p)
      ensures forall q {:trigger IsHighlighted(q)} :: 0 <= q ==> (IsHighlighted(q) <==> q == p && old(checkedPosition) != p)
      ensures notifications == old(notifications) + 1
    {
      if checkedPosition == p {
        checkedPosition := -1;
      } else {
        checkedPosition := p;
      }
      notifications := notifications + 1;
    }

    /** Replaces the contents by a copy of `datas`; null is ignored. */
    method SetNewData(datas: Option<seq<string>>)
      modifies this`dataList, this`notifications
      ensures datas.None? ==> dataList == old(dataList) && notifications == old(notifications)
      ensures datas.Some? ==> dataList == datas && notifications == old(notifications) + 1
    {
      if datas.Some? {
        if dataList.None? {
          dataList := Some([]);
        } else {
          dataList := Some([]);
        }
        dataList := Some(dataList.value + datas.value);
        assert dataList.value == datas.value;
        notifications := notifications + 1;
      }
    }

    /** Appends `datas` when both it and the current list exist; otherwise nothing happens. */
    method AddData(datas: Option<seq<string>>)
      modifies this`dataList, this`notifications
      ensures datas.Some? && old(dataList).Some? ==>
        dataList == Some(old(dataList).value + datas.value) && notifications == old(notifications) + 1
      ensures datas.None? || old(dataList).None? ==>
        dataList == old(dataList) && notifications == old(notifications)
    {
      if datas.Some? && dataList.Some? {
        dataList := Some(dataList.value + datas.value);
        notifications := notifications + 1;
      }
    }

    /** getItemCount. */
    function ItemCount(): (n: int)
      reads this
      ensures 0 <= n
      ensures dataList.None? ==> n == 0
      ensures dataList.Some? ==> n == |dataList.value|
    {
      if dataList.None? then 0 else |dataList.value|
    }

    /** getItem: null for a null or empty list, otherwise the element, which must exist. */
    function GetItem(position: int): (r: ItemResult)
      reads this
      ensures r == NullItem <==> ListIsEmpty(dataList)
      ensures r.Item? ==> 0 <= position < ItemCount() && r.value == dataList.value[position]
      ensures r == OutOfBounds <==> !ListIsEmpty(dataList) && !(0 <= position < ItemCount())
    {
      if ListIsEmpty(dataList) then NullItem
      else if 0 <= position < |dataList.value| then Item(dataList.value[position])
      else OutOfBounds
    }

    /** The style decision of createView: the checked position gets the highlighted style. */
    predicate IsHighlighted(position: int)
      reads this
    {
      position == checkedPosition
    }

    /** At most one item is highlighted, and none while nothing is checked (-1). */
    lemma OneHighlighted(p: int, q: int)
      requires 0 <= p && 0 <= q && IsHighlighted(p) && IsHighlighted(q)
      ensures p == q && 0 <= checkedPosition
    {
    }
  }

  class MainPullFlowLayoutAdapter {
    var dataList: Option<seq<string>>
    var notifications: nat         // notifyChange() calls

    constructor (datas: Option<seq<string>>)
      ensures dataList == datas && notifications == 0
    {
      dataList := datas;
      notifications := 0;
    }

    /** Appends `datas` when both it and the current list exist; otherwise nothing happens. */
    method AddData(datas: Option<seq<string>>)
      modifies this`dataList, this`notifications
      ensures datas.Some? && old(dataList).Some? ==>
        dataList == Some(old(dataList).value + datas.value) && notifications == old(notifications) + 1
      ensures datas.None? || old(dataList).None? ==>
        dataList == old(dataList) && notifications == old(notifications)
    {
      if datas.Some? && dataList.Some? {
        dataList := Some(dataList.value + datas.value);
        notifications := notifications + 1;
      }
    }

    /** getViewCount. */
    function ViewCount(): (n: int)
      reads this
      ensures 0 <= n
      ensures dataList.None? ==> n == 0
      ensures dataList.Some? ==> n == |dataList.value|
    {
      if dataList.None? then 0 else |dataList.value|
    }

    /**
     * The style decision of createView: every fourth item, starting with
     * the first, is highlighted. (Java's `%` truncates, but whether the
     * remainder is 0 does not depend on that.)
     */
    function IsHighlighted(position: int): (r: bool)
      ensures r <==> position == 4 * (position / 4)
      ensures 0 <= position < 4 ==> (r <==> position == 0)
    {
      position % 4 == 0
    }
  }
}

/**
 * The demo app's emptiness helpers (StringUtils and ListUtils). A Java
 * reference that may be null is an Option.
 */
module AppUtils {
  import opened JavaInt

  /** StringUtils.isEmpty: null, the empty string and the literal text "null" all count as empty. */
  function StringIsEmpty(content: Option<string>): (r: bool)
    ensures content.None? ==> r
    ensures content == Some("") ==> r
    ensures content == Some("null") ==> r
    ensures content.Some? && content.value != "" && content.value != "null" ==> !r
  {
    match content
    case None => true
    case Some(s) => |s| == 0 || s == "null"
  }

  /** StringUtils.isNotEmpty: a real string that is neither empty nor "null". */
  function StringIsNotEmpty(content: Option<string>): (r: bool)
    ensures r <==> content.Some? && |content.value| > 0 && content.value != "null"
    ensures r != StringIsEmpty(content)
  {
    !StringIsEmpty(content)
  }

  /** ListUtils.isEmpty: null or no elements. */
  function ListIsEmpty<T>(list: Option<seq<T>>): (r: bool)
    ensures list.None? ==> r
    ensures list == Some([]) ==> r
    ensures list.Some? && |list.value| > 0 ==> !r
  {
    list.None? || |list.value| == 0
  }

  /** ListUtils.notEmpty: a list with at least one element. */
  function ListNotEmpty<T>(list: Option<seq<T>>): (r: bool)
    ensures r <==> list.Some? && |list.value| > 0
    ensures r != ListIsEmpty(list)
  {
    !ListIsEmpty(list)
  }
}

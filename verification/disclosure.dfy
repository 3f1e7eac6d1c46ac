/** Progressive disclosure in a checkbox group: how many of the group's
    original children are rendered, and when the "More" control appears. */
module Disclosure {

  /** The number of children shown before the "More" control is used. */
  const InitialShow: int := 4

  /** The end index that `Array.prototype.slice(0, end)` uses on an array of
      length `len`: a negative `end` counts back from the end, and the result
      is clamped to `0 .. len`. */
  function SliceEnd(len: nat, end: int): (r: nat)
    ensures r <= len
  {
    if end < 0 then (if len + end < 0 then 0 else len + end)
    else if end < len then end
    else len
  }

  /** The children rendered when `show` of them are to be shown. */
  function Visible<T>(children: seq<T>, show: int): seq<T> {
    children[..SliceEnd(|children|, show)]
  }

  /** Whether the "More" control is rendered for a group of `count`
      checkboxes: it is left out once `show` reaches the count. */
  predicate ShowMoreShown(show: int, count: nat) {
    !(show >= count)
  }

  function Min(a: int, b: int): int {
    if a < b then a else b
  }

  /** For a non-negative `show`, the rendered children are the first
      `min(show, n)` of the `n` children. */
  lemma VisibleIsFirstMin<T>(children: seq<T>, show: int)
    requires 0 <= show
    ensures |Visible(children, show)| == Min(show, |children|)
    ensures Visible(children, show) == children[..Min(show, |children|)]
  {
  }

  /** When there are as many children as checkboxes and `show` is not
      negative, the "More" control is rendered exactly when some child is
      still hidden. */
  lemma ShowMoreIffSomeHidden<T>(children: seq<T>, show: int)
    requires 0 <= show
    ensures ShowMoreShown(show, |children|) <==> |Visible(children, show)| < |children|
  {
    VisibleIsFirstMin(children, show);
  }

  /** Setting `show` to the checkbox count renders every child (when there are
      no more children than checkboxes) and removes the "More" control; the
      children shown before stay shown, in front. */
  lemma RevealAll<T>(children: seq<T>, show: int, count: nat)
    requires 0 <= show
    requires |children| <= count
    ensures Visible(children, count) == children
    ensures !ShowMoreShown(count, count)
    ensures Visible(children, show) <= Visible(children, count)
  {
  }
}

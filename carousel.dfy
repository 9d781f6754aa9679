/**
 * The page indicators of `CarouselView`: one indicator per page, each
 * reduced to its active flag. The pager adapter is outside the model; its
 * page count is passed in where the view asks the adapter for it.
 */
module Carousel {
  import opened Common

  /** The page before `current`, wrapping from the first page to the last. */
  function PreviousPosition(current: int, count: int): (p: int)
    ensures 0 <= current < count ==> 0 <= p < count && (p + 1) % count == current
    ensures current != 0 ==> p == current - 1
    ensures count >= 0 && !(0 <= current < count) ==> p == current - 1
  {
    if current == 0 then count - 1 else current - 1
  }

  /** The page after `current`, wrapping from the last page to the first. */
  function NextPosition(current: int, count: int): (n: int)
    ensures 0 <= current < count ==> 0 <= n < count && n == (current + 1) % count
    ensures current != count - 1 ==> n == current + 1
    ensures count >= 0 && !(0 <= current < count) ==> n == current + 1
  {
    if current == count - 1 then 0 else current + 1
  }

  /** On a valid page, previous and next undo each other. */
  lemma NeighboursInverse(current: int, count: int)
    requires 0 <= current < count
    ensures NextPosition(PreviousPosition(current, count), count) == current
    ensures PreviousPosition(NextPosition(current, count), count) == current
  {
  }

  /** `setActive(active)` on the indicator at `i`, or nothing when there is no indicator there. */
  function SetIfPresent(flags: seq<bool>, i: int, active: bool): (r: seq<bool>)
    ensures |r| == |flags|
    ensures forall j :: 0 <= j < |r| ==> r[j] == if j == i then active else flags[j]
  {
    if 0 <= i < |flags| then flags[i := active] else flags
  }

  /**
   * The indicator flags after page `position` of `count` is selected: the
   * current indicator is set active, then the previous and the next
   * inactive, in that order; the later writes win.
   */
  function SelectPage(flags: seq<bool>, position: int, count: int): (r: seq<bool>)
    ensures |r| == |flags|
    ensures forall j ::
      (0 <= j < |r| && j != position && j != PreviousPosition(position, count) && j != NextPosition(position, count))
      ==> r[j] == flags[j]
    ensures var p := PreviousPosition(position, count); 0 <= p < |r| ==> !r[p]
    ensures var n := NextPosition(position, count); 0 <= n < |r| ==> !r[n]
    ensures 2 <= count && 0 <= position < count && position < |r| ==> r[position]
    ensures count == 1 && position == 0 && |r| > 0 ==> !r[0]
  {
    var previousPosition := PreviousPosition(position, count);
    var nextPosition := NextPosition(position, count);
    SetIfPresent(SetIfPresent(SetIfPresent(flags, position, true), previousPosition, false), nextPosition, false)
  }

  /** The flags just after the indicators are rebuilt for `count` pages. */
  function FreshIndicators(count: int): (r: seq<bool>)
    ensures |r| == if count > 0 then count else 0
    ensures forall i :: 0 <= i < |r| ==> (r[i] <==> i == 0)
  {
    seq(if count > 0 then count else 0, i => i == 0)
  }

  class CarouselView {
    /** The indicators container's children, each reduced to its active flag. */
    var indicators: seq<bool>

    /** A view whose indicators container is still empty. */
    constructor ()
      ensures indicators == []
    {
      indicators := [];
    }

    /** `getIndicator(position)`: the indicator's flag, or `null` when there is none. */
    function GetIndicator(position: int): (r: Option<bool>)
      reads this
      ensures r.Some? <==> 0 <= position < |indicators|
      ensures r.Some? ==> r.value == indicators[position]
    {
      if 0 <= position < |indicators| then Some(indicators[position]) else None
    }

    /**
     * `generateIndicators(count)`: removes every indicator, then adds `count`
     * new ones with only the first active.
     */
    method GenerateIndicators(count: int)
      modifies this
      ensures indicators == FreshIndicators(count)
    {
      indicators := [];
      var i := 0;
      while i < count
        invariant 0 <= i <= (if count > 0 then count else 0)
        invariant |indicators| == i
        invariant forall j :: 0 <= j < i ==> (indicators[j] <==> j == 0)
      {
        indicators := indicators + [i == 0];
        i := i + 1;
      }
    }

    /** `setPagerAdapter(adapter)`, for an adapter holding `adapterCount` pages. */
    method SetPagerAdapter(adapterCount: int)
      modifies this
      ensures indicators == FreshIndicators(adapterCount)
    {
      GenerateIndicators(adapterCount);
    }

    /**
     * The page change listener's `onPageSelected(position)`, with `itemCount`
     * the adapter's page count at that moment.
     */
    method OnPageSelected(position: int, itemCount: int)
      modifies this
      ensures indicators == SelectPage(old(indicators), position, itemCount)
    {
      var currentPosition := position;
      var previousPosition := PreviousPosition(currentPosition, itemCount);
      var nextPosition := NextPosition(currentPosition, itemCount);
      if GetIndicator(position).Some? {
        indicators := indicators[position := true];
      }
      if GetIndicator(previousPosition).Some? {
        indicators := indicators[previousPosition := false];
      }
      if GetIndicator(nextPosition).Some? {
        indicators := indicators[nextPosition := false];
      }
    }
  }
}

/**
 * `java.util.Arrays.binarySearch(int[], int)`, the lookup the section indexer
 * relies on: the JDK's low/high/mid loop, the recursive function it computes,
 * and the contract the JDK documents for it.
 */
module ArraySearch {

  /** Non-decreasing order: what `binarySearch` demands of its array. */
  predicate Sorted(a: seq<int>) {
    forall i, j :: 0 <= i < j < |a| ==> a[i] <= a[j]
  }

  /**
   * The documented insertion point of `key`: the index of the first element
   * greater than `key`, or `|a|` when there is none.
   */
  function InsertionPoint(a: seq<int>, key: int): (p: nat)
    ensures p <= |a|
    ensures forall i :: 0 <= i < p ==> a[i] <= key
    ensures p < |a| ==> a[p] > key
  {
    if a == [] then 0
    else if a[0] > key then 0
    else 1 + InsertionPoint(a[1..], key)
  }

  /**
   * The contract of `binarySearch`: when `key` occurs, the index of SOME
   * occurrence; otherwise `-(insertion point) - 1`.
   */
  predicate MeetsSearchContract(a: seq<int>, key: int, r: int) {
    if key in a then 0 <= r < |a| && a[r] == key
    else r == -(InsertionPoint(a, key) as int) - 1
  }

  /**
   * The largest index whose element is at most `key`, or -1 when every
   * element exceeds `key` (a floor search).
   */
  function FloorIndex(a: seq<int>, key: int): (r: int)
    ensures -1 <= r < |a|
    ensures r >= 0 ==> a[r] <= key
    ensures forall j :: r < j < |a| ==> a[j] > key
  {
    if a == [] then -1
    else if a[|a| - 1] <= key then |a| - 1
    else FloorIndex(a[..|a| - 1], key)
  }

  /**
   * The search the JDK loop performs between `low` and `high` inclusive;
   * `mid` is `(low + high) >>> 1`, which equals `(low + high) / 2` for the
   * non-negative bounds used here.
   */
  function Probe(a: seq<int>, key: int, low: int, high: int): int
    requires 0 <= low <= high + 1 <= |a|
    decreases high + 1 - low
  {
    if low > high then -(low + 1)
    else
      var mid := (low + high) / 2;
      if a[mid] < key then Probe(a, key, mid + 1, high)
      else if a[mid] > key then Probe(a, key, low, mid - 1)
      else mid
  }

  /** In a sorted array, the elements below the insertion point are exactly those at most `key`. */
  lemma InsertionPointIsFloorPlusOne(a: seq<int>, key: int)
    requires Sorted(a)
    ensures InsertionPoint(a, key) == FloorIndex(a, key) + 1
  {
  }

  /** A point that splits `a` into "below key" and "above key" is the insertion point. */
  lemma {:induction false} InsertionPointAt(a: seq<int>, key: int, p: int)
    requires 0 <= p <= |a|
    requires forall i :: 0 <= i < p ==> a[i] < key
    requires forall i :: p <= i < |a| ==> a[i] > key
    ensures key !in a
    ensures InsertionPoint(a, key) == p
  {
    if a != [] && a[0] <= key {
      InsertionPointAt(a[1..], key, p - 1);
    }
  }

  /** The JDK loop meets the documented contract on a sorted array. */
  lemma {:induction false} ProbeMeetsContract(a: seq<int>, key: int, low: int, high: int)
    requires Sorted(a)
    requires 0 <= low <= high + 1 <= |a|
    requires forall i :: 0 <= i < low ==> a[i] < key
    requires forall i :: high < i < |a| ==> a[i] > key
    ensures MeetsSearchContract(a, key, Probe(a, key, low, high))
    decreases high + 1 - low
  {
    if low > high {
      InsertionPointAt(a, key, low);
    } else {
      var mid := (low + high) / 2;
      if a[mid] < key {
        assert forall i :: 0 <= i < mid + 1 ==> a[i] <= a[mid];
        ProbeMeetsContract(a, key, mid + 1, high);
      } else if a[mid] > key {
        assert forall i :: mid - 1 < i < |a| ==> a[mid] <= a[i];
        ProbeMeetsContract(a, key, low, mid - 1);
      }
    }
  }

  /** A search result that says "not found" locates the floor: `-r - 2` is the floor index. */
  lemma NotFoundGivesFloor(a: seq<int>, key: int, r: int)
    requires Sorted(a)
    requires MeetsSearchContract(a, key, r)
    requires r < 0
    ensures key !in a
    ensures -r - 2 == FloorIndex(a, key)
  {
    InsertionPointIsFloorPlusOne(a, key);
  }

  /** An index at most `key` with only larger elements after it is the floor index. */
  lemma FloorIndexUnique(a: seq<int>, key: int, r: int)
    requires 0 <= r < |a| && a[r] <= key
    requires forall j :: r < j < |a| ==> a[j] > key
    ensures FloorIndex(a, key) == r
  {
  }

  /** In a sorted array, the last of a run of elements equal to `key` is the floor index. */
  lemma LastMatchIsFloor(a: seq<int>, key: int, r: int)
    requires Sorted(a)
    requires 0 <= r < |a| && a[r] == key
    requires r + 1 == |a| || a[r + 1] != key
    ensures FloorIndex(a, key) == r
  {
    assert forall j :: r < j < |a| ==> a[r + 1] <= a[j];
    FloorIndexUnique(a, key, r);
  }

  /** One probe of the search: compare the middle element and keep the half that can hold `key`. */
  lemma ProbeStep(a: seq<int>, key: int, low: int, high: int)
    requires 0 <= low <= high < |a|
    ensures var mid := (low + high) / 2;
      low <= mid <= high &&
      Probe(a, key, low, high) ==
        if a[mid] < key then Probe(a, key, mid + 1, high)
        else if a[mid] > key then Probe(a, key, low, mid - 1)
        else mid
  {
  }

  /** `java.util.Arrays.binarySearch(int[], int)`, the JDK's loop. */
  method BinarySearch(a: array<int>, key: int) returns (r: int)
    requires Sorted(a[..])
    ensures r == Probe(a[..], key, 0, a.Length - 1)
    ensures MeetsSearchContract(a[..], key, r)
  {
    ProbeMeetsContract(a[..], key, 0, a.Length - 1);
    ghost var answer := Probe(a[..], key, 0, a.Length - 1);
    var low, high := 0, a.Length - 1;
    while low <= high
      invariant 0 <= low <= high + 1 <= a.Length
      invariant Probe(a[..], key, low, high) == answer
      decreases high + 1 - low
    {
      var mid := (low + high) / 2;
      var midVal := a[mid];
      ProbeStep(a[..], key, low, high);
      if midVal < key {
        low := mid + 1;
      } else if midVal > key {
        high := mid - 1;
      } else {
        return mid;
      }
    }
    return -(low + 1);
  }
}

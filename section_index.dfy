/**
 * The section indexer nested in `IndexableListAdapter`: a snapshot of the
 * sizes of an ordered list of sections, with their cumulative start
 * positions, translating between flat list positions and section numbers.
 */
module SectionIndex {
  import opened Common
  import opened ArraySearch
  import opened Lists

  /** `INVALID_POSITION` and `INVALID_SECTION`. */
  const InvalidPosition := -1
  const InvalidSection := -1

  // ---- the specification: sizes, starts and the section owning a position ----

  /** The sum of `s`. */
  function Sum(s: seq<int>): int {
    if s == [] then 0 else Sum(s[..|s| - 1]) + s[|s| - 1]
  }

  predicate NonNegative(sizes: seq<int>) {
    forall i :: 0 <= i < |sizes| ==> sizes[i] >= 0
  }

  /** The start position of each section: the number of items in the sections before it. */
  function Starts(sizes: seq<int>): (r: seq<int>)
    ensures |r| == |sizes|
    ensures forall i :: 0 <= i < |r| ==> r[i] == Sum(sizes[..i])
  {
    seq(|sizes|, i requires 0 <= i < |sizes| => Sum(sizes[..i]))
  }

  /**
   * The section that owns flat position `position`: the last one starting at
   * or before it (a floor search over the starts).
   */
  function Owner(sizes: seq<int>, position: int): int {
    FloorIndex(Starts(sizes), position)
  }

  /** The sizes of the given sections, read from their item lists. */
  function SizesOf<K, E(==)>(sections: seq<IndexableList<K, E>>): (r: seq<int>)
    reads sections
    ensures |r| == |sections|
    ensures forall i :: 0 <= i < |r| ==> r[i] == |sections[i].items|
  {
    if sections == [] then []
    else SizesOf(sections[..|sections| - 1]) + [|sections[|sections| - 1].items|]
  }

  lemma SumPrefixStep(s: seq<int>, i: nat)
    requires i < |s|
    ensures Sum(s[..i + 1]) == Sum(s[..i]) + s[i]
  {
    assert s[..i + 1][..i] == s[..i];
  }

  /** Sums of longer prefixes of non-negative sizes are no smaller. */
  lemma {:induction false} SumPrefixMonotone(s: seq<int>, i: nat, j: nat)
    requires NonNegative(s) && i <= j <= |s|
    ensures Sum(s[..i]) <= Sum(s[..j])
    decreases j - i
  {
    if i < j {
      SumPrefixMonotone(s, i, j - 1);
      SumPrefixStep(s, j - 1);
    }
  }

  /** The first start is 0 and each later start adds the previous section's size. */
  lemma StartsRecurrence(sizes: seq<int>)
    ensures |sizes| > 0 ==> Starts(sizes)[0] == 0
    ensures forall i :: 0 <= i < |sizes| - 1 ==> Starts(sizes)[i + 1] == Starts(sizes)[i] + sizes[i]
  {
    forall i | 0 <= i < |sizes| - 1
      ensures Starts(sizes)[i + 1] == Starts(sizes)[i] + sizes[i]
    {
      SumPrefixStep(sizes, i);
    }
  }

  /** With no negative size, the starts never decrease. */
  lemma StartsSorted(sizes: seq<int>)
    requires NonNegative(sizes)
    ensures Sorted(Starts(sizes))
  {
    forall i, j | 0 <= i < j < |sizes|
      ensures Starts(sizes)[i] <= Starts(sizes)[j]
    {
      SumPrefixMonotone(sizes, i, j);
    }
  }

  /**
   * The last section's start plus its size is the total number of items, so
   * the upper bound the indexer computes is always the total minus one.
   */
  lemma LastEndIsTotal(sizes: seq<int>)
    requires |sizes| > 0
    ensures Starts(sizes)[|sizes| - 1] + sizes[|sizes| - 1] == Sum(sizes)
  {
    SumPrefixStep(sizes, |sizes| - 1);
    assert sizes[..|sizes|] == sizes;
  }

  /** Every position below the total lies in the section `Owner` names. */
  lemma OwnerOwns(sizes: seq<int>, position: int)
    requires NonNegative(sizes) && 0 <= position < Sum(sizes)
    ensures 0 <= Owner(sizes, position) < |sizes|
    ensures var s := Owner(sizes, position);
      Starts(sizes)[s] <= position < Starts(sizes)[s] + sizes[s]
    ensures var s := Owner(sizes, position);
      Sum(sizes[..s]) <= position < Sum(sizes[..s]) + sizes[s]
  {
    if sizes != [] {
      var st, n := Starts(sizes), |sizes|;
      var s := FloorIndex(st, position);
      assert sizes[..0] == [];
      assert st[0] == 0;
      assert s >= 0;
      if s < n - 1 {
        SumPrefixStep(sizes, s);
        assert st[s + 1] == st[s] + sizes[s];
      } else {
        LastEndIsTotal(sizes);
      }
    }
  }

  /** No other section contains a position that `Owner` assigns. */
  lemma OwnerUnique(sizes: seq<int>, position: int, s: int)
    requires NonNegative(sizes)
    requires 0 <= s < |sizes|
    requires Starts(sizes)[s] <= position < Starts(sizes)[s] + sizes[s]
    ensures Owner(sizes, position) == s
  {
    var st := Starts(sizes);
    StartsSorted(sizes);
    StartsRecurrence(sizes);
    assert forall j :: s < j < |st| ==> st[s + 1] <= st[j];
    FloorIndexUnique(st, position, s);
  }

  /** The first position of a non-empty section maps back to that section. */
  lemma RoundTrip(sizes: seq<int>, s: int)
    requires NonNegative(sizes)
    requires 0 <= s < |sizes| && sizes[s] > 0
    ensures Owner(sizes, Starts(sizes)[s]) == s
  {
    OwnerUnique(sizes, Starts(sizes)[s], s);
  }

  /** Two sections share a start only when every section from the first up to the second is empty. */
  lemma SharedStartMeansEmpty(sizes: seq<int>, i: int, j: int)
    requires NonNegative(sizes)
    requires 0 <= i < j < |sizes| && Starts(sizes)[i] == Starts(sizes)[j]
    ensures forall k :: i <= k < j ==> sizes[k] == 0
  {
    forall k | i <= k < j
      ensures sizes[k] == 0
    {
      SumPrefixMonotone(sizes, i, k);
      SumPrefixStep(sizes, k);
      SumPrefixMonotone(sizes, k + 1, j);
    }
  }

  /**
   * What a search result obeying the documented contract says about the
   * section that owns `position`: an exact hit is a section starting there,
   * and a miss encodes the owner (as `-owner - 2`).
   */
  lemma SearchOutcome(sizes: seq<int>, position: int, found: int)
    requires NonNegative(sizes) && 0 <= position < Sum(sizes)
    requires MeetsSearchContract(Starts(sizes), position, found)
    ensures position in Starts(sizes) <==> found >= 0
    ensures found >= 0 ==> found < |sizes| && Sum(sizes[..found]) == position
    ensures found < 0 ==> found == -Owner(sizes, position) - 2 && found <= -2
  {
    var st := Starts(sizes);
    StartsSorted(sizes);
    if found < 0 {
      NotFoundGivesFloor(st, position, found);
      OwnerOwns(sizes, position);
    }
  }

  /** Sizes that are never negative, and the start positions they give. */
  predicate Consistent(sizes: seq<int>, starts: seq<int>) {
    NonNegative(sizes) && starts == Starts(sizes)
  }

  /**
   * The first `k` entries of `st` are the starts of `sizes`, and `last` is
   * the number of items in the first `k` sections.
   */
  predicate StartsUpTo(sizes: seq<int>, st: seq<int>, k: int, last: int) {
    && 0 <= k <= |sizes| == |st|
    && last == Sum(sizes[..k])
    && forall i :: 0 <= i < k ==> st[i] == Starts(sizes)[i]
  }

  lemma StartsUpToStep(sizes: seq<int>, before: seq<int>, after: seq<int>, k: int, last: int)
    requires StartsUpTo(sizes, before, k, last) && k < |sizes|
    requires after == before[k := last]
    ensures StartsUpTo(sizes, after, k + 1, last + sizes[k])
  {
    SumPrefixStep(sizes, k);
  }

  lemma StartsUpToAll(sizes: seq<int>, st: seq<int>, last: int)
    requires StartsUpTo(sizes, st, |sizes|, last)
    ensures st == Starts(sizes)
  {
  }

  // ---- the indexer ----

  /**
   * The loop of the `Indexer` constructor: each section's start is the
   * position reached so far, which then grows by the section's size.
   */
  method PopulateSizesAndStarts<K, E(==)>(sections: seq<IndexableList<K, E>>)
    returns (sectionSizes: array<int>, startPositions: array<int>)
    ensures fresh(sectionSizes) && fresh(startPositions)
    ensures sectionSizes[..] == SizesOf(sections)
    ensures Consistent(sectionSizes[..], startPositions[..])
  {
    var n := |sections|;
    sectionSizes := new int[n];
    startPositions := new int[n];
    ghost var want := SizesOf(sections);
    var lastPosition := 0;
    for sectionPosition := 0 to n
      invariant sectionSizes.Length == startPositions.Length == n && sectionSizes != startPositions
      invariant forall i :: 0 <= i < sectionPosition ==> sectionSizes[i] == want[i]
      invariant StartsUpTo(want, startPositions[..], sectionPosition, lastPosition)
    {
      ghost var before := startPositions[..];
      startPositions[sectionPosition] := lastPosition;
      var sectionSize := sections[sectionPosition].Size();
      assert sectionSize == want[sectionPosition];
      StartsUpToStep(want, before, startPositions[..], sectionPosition, lastPosition);
      lastPosition := lastPosition + sectionSize;
      sectionSizes[sectionPosition] := sectionSize;
    }
    assert sectionSizes[..] == want;
    StartsUpToAll(want, startPositions[..], lastPosition);
  }

  /** `IndexableListAdapter.Indexer`: built once, read-only afterwards. */
  class Indexer<K, E(==)> {
    /** `mSections`: one label slot per section. */
    const labels: array<Option<string>>
    /** `mSectionSizes`. */
    const sizes: array<int>
    /** `mSectionStartPositions`. */
    const starts: array<int>

    ghost predicate Valid()
      reads this, sizes, starts
    {
      && labels.Length == sizes.Length == starts.Length
      && Consistent(sizes[..], starts[..])
    }

    /**
     * `Indexer(sections)`: copies each section's size and accumulates the
     * start positions. The label slots are allocated and never written, and
     * no reference to the sections is kept.
     */
    constructor (sections: seq<IndexableList<K, E>>)
      ensures Valid()
      ensures fresh(labels) && fresh(sizes) && fresh(starts)
      ensures sizes[..] == SizesOf(sections)
      ensures forall i :: 0 <= i < labels.Length ==> labels[i] == None
    {
      labels := new Option<string>[|sections|](_ => None);
      var sectionSizes, startPositions := PopulateSizesAndStarts(sections);
      sizes, starts := sectionSizes, startPositions;
    }

    /** `getSections()`: the internal label array itself (an alias, not a copy). */
    function GetSections(): (r: array<Option<string>>)
      reads this, sizes, starts
      requires Valid()
      ensures r == labels && r.Length == sizes.Length
    {
      labels
    }

    /** `getPositionForSection(section)`. */
    function GetPositionForSection(section: int): (r: int)
      reads this, sizes, starts
      requires Valid()
      ensures 0 <= section < sizes.Length ==> r == Sum(sizes[..section])
      ensures !(0 <= section < sizes.Length) ==> r == InvalidPosition
    {
      if section < 0 || section >= labels.Length then InvalidPosition
      else starts[section]
    }

    /**
     * `getSectionForPosition(position)` as written: throws on an empty
     * indexer, answers -1 outside the items, returns some section starting
     * exactly at `position` when there is one (possibly an empty section),
     * and otherwise `binarySearch - 2`, which is `-owner - 4`.
     */
    method GetSectionForPosition(position: int) returns (r: Result<int>)
      requires Valid()
      ensures r.Thrown? <==> sizes.Length == 0
      ensures r.Thrown? ==> r.exception == ArrayIndexOutOfBounds(-1)
      ensures r.Ok? && !(0 <= position < Sum(sizes[..])) ==> r.value == InvalidSection
      ensures 0 <= position < Sum(sizes[..]) && position in Starts(sizes[..]) ==>
        r.Ok? && 0 <= r.value < sizes.Length && Sum(sizes[..r.value]) == position
      ensures 0 <= position < Sum(sizes[..]) && position !in Starts(sizes[..]) ==>
        r == Ok(-Owner(sizes[..], position) - 4) && r.value <= -4
      // Which of several equal starts is returned is decided by the JDK search.
      ensures 0 <= position < Sum(sizes[..]) ==>
        var found := Probe(starts[..], position, 0, sizes.Length - 1);
        r == Ok(if found >= 0 then found else found - 2)
    {
      var n := labels.Length;
      if n == 0 {
        assert Sum(sizes[..]) == 0;
        return Thrown(ArrayIndexOutOfBounds(n - 1));
      }
      var lastSectionIndex := n - 1;
      var lastSectionStartPosition := starts[lastSectionIndex];
      var lastSectionLastItemPosition := sizes[lastSectionIndex] - 1;
      var lastItemPosition := lastSectionStartPosition + lastSectionLastItemPosition;
      LastEndIsTotal(sizes[..]);
      if position < 0 || position > lastItemPosition {
        return Ok(InvalidSection);
      }
      StartsSorted(sizes[..]);
      var closestSection := BinarySearch(starts, position);
      SearchOutcome(sizes[..], position, closestSection);
      r := Ok(if closestSection >= 0 then closestSection else closestSection - 2);
    }

    /**
     * `getSectionForPosition` as its comment and the `SectionIndexer`
     * contract intend: -1 outside the items (also when there are no
     * sections), otherwise the section that owns `position`.
     */
    method GetSectionForPositionIntended(position: int) returns (r: int)
      requires Valid()
      ensures !(0 <= position < Sum(sizes[..])) ==> r == InvalidSection
      ensures 0 <= position < Sum(sizes[..]) ==>
        && r == Owner(sizes[..], position)
        && 0 <= r < sizes.Length
    {
      var n := labels.Length;
      if n == 0 {
        assert Sum(sizes[..]) == 0;
        return InvalidSection;
      }
      LastEndIsTotal(sizes[..]);
      var lastItemPosition := starts[n - 1] + sizes[n - 1] - 1;
      if position < 0 || position > lastItemPosition {
        return InvalidSection;
      }
      ghost var st := starts[..];
      StartsSorted(sizes[..]);
      var closestSection := BinarySearch(starts, position);
      if closestSection < 0 {
        SearchOutcome(sizes[..], position, closestSection);
        r := -closestSection - 2;
      } else {
        // Skip the empty sections that share this start.
        r := closestSection;
        while r + 1 < n && starts[r + 1] == position
          invariant 0 <= r < n && st[r] == position
          decreases n - r
        {
          r := r + 1;
        }
        LastMatchIsFloor(st, position, r);
      }
      OwnerOwns(sizes[..], position);
    }
  }

  // ---- what callers observe ----

  /** A fresh section holding `count` items. */
  method NewSection(key: char, count: nat) returns (section: IndexableList<char, int>)
    ensures fresh(section) && section.key == key && |section.items| == count
  {
    section := new IndexableList(key, [key]);
    for i := 0 to count
      invariant |section.items| == i
    {
      var _ := section.Add(i);
    }
  }

  /**
   * The indexer is a snapshot: after a section gains an item, the indexer
   * still answers from the sizes it copied.
   */
  method SnapshotIsolation<K, E(==)>(sections: seq<IndexableList<K, E>>, k: nat, e: E) returns (indexer: Indexer<K, E>)
    requires k < |sections|
    modifies sections[k]
    ensures indexer.Valid()
    ensures indexer.sizes[..] == old(SizesOf(sections))
    ensures indexer.sizes[k] == |sections[k].items| - 1
  {
    indexer := new Indexer(sections);
    var _ := sections[k].Add(e);
  }

  /** Sizes 3, 2, 1 start at 0, 3 and 5, hold 6 items, and position 4 lies in section 1. */
  lemma CommentFigures()
    ensures Starts([3, 2, 1]) == [0, 3, 5]
    ensures Sum([3, 2, 1]) == 6
    ensures Owner([3, 2, 1], 4) == 1
  {
    assert [3, 2, 1][..1] == [3];
    assert [3, 2, 1][..2] == [3, 2];
    assert [0, 3, 5][..2] == [0, 3];
    assert [3, 2, 1][..0] == [] && [3][..0] == [] && [3, 2][..1] == [3];
    assert Starts([3, 2, 1])[0] == Sum([]) == 0;
    assert Starts([3, 2, 1])[1] == Sum([3]) == 3;
    assert Starts([3, 2, 1])[2] == Sum([3, 2]) == 5;
  }

  /** Sizes 3, 0, 5 start at 0, 3 and 3, hold 8 items, and the search for 3 meets index 1 first. */
  lemma EmptySectionFigures()
    ensures Starts([3, 0, 5]) == [0, 3, 3]
    ensures Sum([3, 0, 5]) == 8
    ensures Probe([0, 3, 3], 3, 0, 2) == 1
    ensures Owner([3, 0, 5], 3) == 2
  {
    assert [3, 0, 5][..1] == [3];
    assert [3, 0, 5][..2] == [3, 0];
    assert [3, 0, 5][..0] == [] && [3][..0] == [] && [3, 0][..1] == [3];
    assert Starts([3, 0, 5])[0] == Sum([]) == 0;
    assert Starts([3, 0, 5])[1] == Sum([3]) == 3;
    assert Starts([3, 0, 5])[2] == Sum([3, 0]) == 3;
  }

  /**
   * The worked example in the comment in `getSectionForPosition`: starts 0, 3, 5 and
   * position 4, which section 1 owns; the code returns -5.
   */
  method CommentExample() returns (asWritten: Result<int>, intended: int)
    ensures asWritten == Ok(-5)
    ensures intended == 1
  {
    var a := NewSection('A', 3);
    var b := NewSection('B', 2);
    var c := NewSection('C', 1);
    var indexer := new Indexer([a, b, c]);
    assert indexer.sizes[..] == [3, 2, 1];
    CommentFigures();
    asWritten := indexer.GetSectionForPosition(4);
    intended := indexer.GetSectionForPositionIntended(4);
  }

  /**
   * Sizes 3, 0, 5: position 3 is where both section 1 (empty) and section 2
   * start; the code returns the empty section 1, the owner is section 2.
   */
  method EmptySectionExample() returns (asWritten: Result<int>, intended: int)
    ensures asWritten == Ok(1)
    ensures intended == 2
  {
    var a := NewSection('A', 3);
    var b := NewSection('B', 0);
    var c := NewSection('C', 5);
    var indexer := new Indexer([a, b, c]);
    assert indexer.sizes[..] == [3, 0, 5];
    EmptySectionFigures();
    assert indexer.starts[..] == [0, 3, 3];
    asWritten := indexer.GetSectionForPosition(3);
    intended := indexer.GetSectionForPositionIntended(3);
  }

  /** With no sections, the code throws; the intended answer is -1. */
  method NoSectionsExample(position: int) returns (asWritten: Result<int>, intended: int)
    ensures asWritten == Thrown(ArrayIndexOutOfBounds(-1))
    ensures intended == InvalidSection
  {
    var indexer := new Indexer<char, int>([]);
    asWritten := indexer.GetSectionForPosition(position);
    intended := indexer.GetSectionForPositionIntended(position);
  }
}

# Sectioned list index, carousel indicators and tab registry — a Dafny model

This project models the parts of the UiWidgets Android toolkit that hold state or logic:

- **`IndexableList`** (`list/IndexableList.java`, contract `list/Indexable.java`): an ArrayList of items with a fixed index key and display label, compared by key only. Modelled as the class `Lists.IndexableList` with `const key`, `const displayLabel` (the getters `getIndexKey`/`getIndexLabel`; being `const`, no method can reassign them) and `var items: seq<E>`, with ArrayList semantics including the `IndexOutOfBoundsException` paths (`Common.Result`/`Common.Outcome`).
- **`IndexableListAdapter.Indexer`** (`list/IndexableListAdapter.java`): a snapshot of the section sizes and their cumulative start positions, translating between flat positions and sections. Modelled as `SectionIndex.Indexer`, with its three `const` arrays, the populating loop, and the queries. `java.util.Arrays.binarySearch(int[], int)` is modelled in `ArraySearch` as the JDK's low/high/mid loop, proved to meet its documented contract (some matching index when found, `-(insertion point) - 1` otherwise).
- **`CarouselView` indicators** (`carousel/CarouselView.java`): one active flag per indicator (`Carousel.CarouselView.indicators`), rebuilt by `generateIndicators` and updated by the page-change listener.
- **`FragmentTabsAdapter` tab map** (`tabs/FragmentTabsAdapter.java`): the `LinkedHashMap<String, TabInfo>` as a sequence of entries with distinct tags (`Tabs.FragmentTabsAdapter.tabs`).

The specification of the indexer is stated on values: `Sum`, `Starts(sizes)` (the start of section `i` is the number of items before it) and `Owner(sizes, p)` (the last section starting at or before `p`). The lemmas prove what that gives: the starts never decrease, the last start plus the last size is the total, `Owner` is the unique section containing `p`, and a non-empty section's start maps back to it.

Where the code differs from what its comment (IndexableListAdapter.java:116-123), the `INVALID_SECTION` convention and the `SectionIndexer` interface lead a caller to expect, the model follows the code:
- The label slots (`mSections`) are allocated but never written, so `getSections` returns an array of `null`s (`None`), not the section labels that `SectionIndexer.getSections` is meant to supply.
- With no sections, `getSectionForPosition` throws `ArrayIndexOutOfBoundsException`; it does not return -1.
- For sizes 3, 0, 5 and position 3, the query returns the empty section 1, not 2.
- For a position strictly inside a section it returns `-owner - 4`, not the owner.

The last three are listed under Findings. `Indexer.GetSectionForPositionIntended` is the corrected query.

The range check's bound `starts[N-1] + sizes[N-1] - 1` is always the total item count minus one, empty sections or not (`SectionIndex.LastEndIsTotal`).

## Model

| member | source | states |
|---|---|---|
| `ArraySearch.InsertionPoint` | src/com/lillicoder/lib/uiwidgets/list/IndexableListAdapter.java:114 | the insertion point binarySearch encodes: every element before it is at most the key, and the element at it is greater |
| `ArraySearch.FloorIndex` | src/com/lillicoder/lib/uiwidgets/list/IndexableListAdapter.java:116-124 | the floor search the comment describes: the last index whose element is at most the key, or -1 |
| `ArraySearch.ProbeMeetsContract` | src/com/lillicoder/lib/uiwidgets/list/IndexableListAdapter.java:114 | on a sorted array, the JDK low/high/mid search returns a matching index when the key occurs, else `-(insertion point) - 1` |
| `ArraySearch.InsertionPointAt` | src/com/lillicoder/lib/uiwidgets/list/IndexableListAdapter.java:114 | where the search ends with everything below smaller and everything above larger, the key is absent and that point is the insertion point |
| `ArraySearch.InsertionPointIsFloorPlusOne` | src/com/lillicoder/lib/uiwidgets/list/IndexableListAdapter.java:116-124 | in a sorted array, insertion point = floor index + 1 |
| `ArraySearch.NotFoundGivesFloor` | src/com/lillicoder/lib/uiwidgets/list/IndexableListAdapter.java:116-124 | for a "not found" result r, the comment's formula `-r - 2` is the largest index whose start is at most the position |
| `ArraySearch.FloorIndexUnique` | src/com/lillicoder/lib/uiwidgets/list/IndexableListAdapter.java:116-124 | an index at most the key, with only larger elements after it, is the floor index |
| `ArraySearch.LastMatchIsFloor` | src/com/lillicoder/lib/uiwidgets/list/IndexableListAdapter.java:114 | in a sorted array, the last of a run of elements equal to the key is its floor index |
| `ArraySearch.BinarySearch` | src/com/lillicoder/lib/uiwidgets/list/IndexableListAdapter.java:114 | `Arrays.binarySearch(int[], int)` on a sorted array: follows the JDK search and meets its documented contract |
| `Lists.RemoveAtInsertAt` | src/com/lillicoder/lib/uiwidgets/list/IndexableList.java:76-79 | inserting at i and then removing at i restores the list |
| `Lists.InsertAtRemoveAt` | src/com/lillicoder/lib/uiwidgets/list/IndexableList.java:146-149 | removing at i and re-inserting the removed item at i restores the list |
| `Lists.RemoveFirstMultiset` | src/com/lillicoder/lib/uiwidgets/list/IndexableList.java:151-154 | remove(object) drops exactly one occurrence when there is one, and changes nothing otherwise |
| `Lists.FirstBeforeLast` | src/com/lillicoder/lib/uiwidgets/list/IndexableList.java:116-119 | indexOf ≤ lastIndexOf, and both are -1 exactly when the item is absent |
| `Lists.IndexableList.constructor` | src/com/lillicoder/lib/uiwidgets/list/IndexableList.java:46-51 | stores key and label; starts with no items |
| `Lists.IndexableList.WithCapacity` | src/com/lillicoder/lib/uiwidgets/list/IndexableList.java:59-64 | stores key and label with no items; a negative capacity throws IllegalArgumentException |
| `Lists.IndexableList.Size` | src/com/lillicoder/lib/uiwidgets/list/IndexableList.java:171-174 | the number of items |
| `Lists.IndexableList.IsEmpty` | src/com/lillicoder/lib/uiwidgets/list/IndexableList.java:121-124 | true exactly when the size is 0 |
| `Lists.IndexableList.Get` | src/com/lillicoder/lib/uiwidgets/list/IndexableList.java:111-114 | the item at a valid index; IndexOutOfBounds outside `[0, size)` |
| `Lists.IndexableList.Add` | src/com/lillicoder/lib/uiwidgets/list/IndexableList.java:81-84 | appends the item and returns true |
| `Lists.IndexableList.AddAt` | src/com/lillicoder/lib/uiwidgets/list/IndexableList.java:76-79 | for `0 ≤ i ≤ size`, inserts at i and shifts later items up; otherwise throws and changes nothing |
| `Lists.IndexableList.AddAll` | src/com/lillicoder/lib/uiwidgets/list/IndexableList.java:91-94 | appends the collection; returns whether it was non-empty |
| `Lists.IndexableList.AddAllAt` | src/com/lillicoder/lib/uiwidgets/list/IndexableList.java:86-89 | inserts the collection at a valid index, returning whether it was non-empty; otherwise throws and changes nothing |
| `Lists.IndexableList.Clear` | src/com/lillicoder/lib/uiwidgets/list/IndexableList.java:96-99 | afterwards there are no items, size is 0 and isEmpty holds |
| `Lists.IndexableList.IndexOf` | src/com/lillicoder/lib/uiwidgets/list/IndexableList.java:116-119 | the first index holding the item, or -1 when there is none |
| `Lists.IndexableList.LastIndexOf` | src/com/lillicoder/lib/uiwidgets/list/IndexableList.java:131-134 | the last index holding the item, or -1 when there is none |
| `Lists.IndexableList.Contains` | src/com/lillicoder/lib/uiwidgets/list/IndexableList.java:101-104 | true exactly when the item occurs, i.e. when indexOf ≥ 0 |
| `Lists.IndexableList.Remove` | src/com/lillicoder/lib/uiwidgets/list/IndexableList.java:146-149 | for `0 ≤ i < size`, returns the item at i and closes the gap; otherwise throws and changes nothing |
| `Lists.IndexableList.RemoveObject` | src/com/lillicoder/lib/uiwidgets/list/IndexableList.java:151-154 | removes the first occurrence; true exactly when the item occurred |
| `Lists.IndexableList.Set` | src/com/lillicoder/lib/uiwidgets/list/IndexableList.java:166-169 | returns the old item and changes only position i, keeping the size; otherwise throws |
| `Lists.IndexableList.ToArray` | src/com/lillicoder/lib/uiwidgets/list/IndexableList.java:181-184 | a new array holding the items in order |
| `Lists.IndexableList.CompareTo` | src/com/lillicoder/lib/uiwidgets/list/IndexableList.java:191-195 | the key type's order on the two keys |
| `Lists.CompareToIgnoresContents` | src/com/lillicoder/lib/uiwidgets/list/IndexableList.java:191-195 | lists with equal keys compare alike whatever their labels and items |
| `SectionIndex.SumPrefixMonotone` | src/com/lillicoder/lib/uiwidgets/list/IndexableListAdapter.java:67-80 | with non-negative sizes, a longer prefix never has a smaller sum |
| `SectionIndex.StartsRecurrence` | src/com/lillicoder/lib/uiwidgets/list/IndexableListAdapter.java:67-80 | `starts[0] = 0` and `starts[i+1] = starts[i] + sizes[i]` |
| `SectionIndex.StartsSorted` | src/com/lillicoder/lib/uiwidgets/list/IndexableListAdapter.java:67-80 | the starts never decrease, as binarySearch requires |
| `SectionIndex.LastEndIsTotal` | src/com/lillicoder/lib/uiwidgets/list/IndexableListAdapter.java:103-106 | the last section's start plus its size is the total item count |
| `SectionIndex.OwnerOwns` | src/com/lillicoder/lib/uiwidgets/list/IndexableListAdapter.java:116-123 | every position below the total lies inside the section s that `Owner` gives: `sum(sizes[..s]) ≤ p < sum(sizes[..s]) + sizes[s]` |
| `SectionIndex.OwnerUnique` | src/com/lillicoder/lib/uiwidgets/list/IndexableListAdapter.java:116-123 | any section containing a position is the one `Owner` gives |
| `SectionIndex.RoundTrip` | src/com/lillicoder/lib/uiwidgets/list/IndexableListAdapter.java:89-125 | the start position of a non-empty section maps back to that section |
| `SectionIndex.SharedStartMeansEmpty` | src/com/lillicoder/lib/uiwidgets/list/IndexableListAdapter.java:114 | two sections share a start only when every section from the first up to the second is empty |
| `SectionIndex.StartsUpToStep` | src/com/lillicoder/lib/uiwidgets/list/IndexableListAdapter.java:67-80 | one pass of the constructor's loop extends the computed starts by one section and the running position by that section's size |
| `SectionIndex.SearchOutcome` | src/com/lillicoder/lib/uiwidgets/list/IndexableListAdapter.java:114-124 | for a position below the total, a search hit is a section starting exactly there, and a miss `r` exactly when no section starts there, with `r = -owner - 2` |
| `SectionIndex.PopulateSizesAndStarts` | src/com/lillicoder/lib/uiwidgets/list/IndexableListAdapter.java:67-80 | the constructor's loop: new arrays holding each section's size and the cumulative starts |
| `SectionIndex.Indexer.constructor` | src/com/lillicoder/lib/uiwidgets/list/IndexableListAdapter.java:56-81 | new arrays of length N; sizes are the sections' sizes at construction, the starts are their prefix sums, every label slot stays null |
| `SectionIndex.Indexer.GetSections` | src/com/lillicoder/lib/uiwidgets/list/IndexableListAdapter.java:84-86 | the internal label array itself, one slot per section |
| `SectionIndex.Indexer.GetPositionForSection` | src/com/lillicoder/lib/uiwidgets/list/IndexableListAdapter.java:89-98 | for `0 ≤ s < N`, the number of items before section s; otherwise -1 (so always -1 when N = 0) |
| `SectionIndex.Indexer.GetSectionForPosition` | src/com/lillicoder/lib/uiwidgets/list/IndexableListAdapter.java:101-125 | throws when N = 0; -1 outside `[0, total)`; at a section start, some section with that start; strictly inside section s, `-s - 4` |
| `SectionIndex.Indexer.GetSectionForPositionIntended` | src/com/lillicoder/lib/uiwidgets/list/IndexableListAdapter.java:116-124 | -1 outside `[0, total)`, including N = 0; otherwise `Owner(sizes, p)`, a valid section, which `OwnerOwns` and `OwnerUnique` show is the one section containing p |
| `SectionIndex.SnapshotIsolation` | src/com/lillicoder/lib/uiwidgets/list/IndexableListAdapter.java:52-54 | adding an item to a section after construction leaves the indexer's sizes, and so its answers, unchanged |
| `SectionIndex.CommentExample` | src/com/lillicoder/lib/uiwidgets/list/IndexableListAdapter.java:116-124 | for starts 0, 3, 5 and position 4 the code returns -5 where the owner is 1 |
| `SectionIndex.EmptySectionExample` | src/com/lillicoder/lib/uiwidgets/list/IndexableListAdapter.java:114 | for sizes 3, 0, 5 and position 3 the code returns the empty section 1 where the owner is 2 |
| `SectionIndex.NoSectionsExample` | src/com/lillicoder/lib/uiwidgets/list/IndexableListAdapter.java:103-104 | with no sections the code throws where -1 is intended |
| `Carousel.PreviousPosition` | src/com/lillicoder/lib/uiwidgets/carousel/CarouselView.java:54-58 | for a valid page, the valid page whose successor mod count is that page (the page before 0 is the last); position - 1 for every other position except 0, and for every out-of-range position when count ≥ 0 |
| `Carousel.NextPosition` | src/com/lillicoder/lib/uiwidgets/carousel/CarouselView.java:62-66 | for a valid page, `(position + 1) mod count` (the page after the last is 0); position + 1 for every other position except count - 1, and for every out-of-range position when count ≥ 0 |
| `Carousel.NeighboursInverse` | src/com/lillicoder/lib/uiwidgets/carousel/CarouselView.java:54-66 | on a valid page, previous and next undo each other |
| `Carousel.SetIfPresent` | src/com/lillicoder/lib/uiwidgets/carousel/CarouselView.java:75-80 | sets one indicator's flag, and does nothing when there is no indicator at that index |
| `Carousel.SelectPage` | src/com/lillicoder/lib/uiwidgets/carousel/CarouselView.java:47-81 | other indicators are unchanged; previous and next end inactive; the current ends active when count ≥ 2; the only indicator ends inactive when count = 1 |
| `Carousel.FreshIndicators` | src/com/lillicoder/lib/uiwidgets/carousel/CarouselView.java:124-134 | max(count, 0) flags, only the first active |
| `Carousel.CarouselView.constructor` | src/com/lillicoder/lib/uiwidgets/carousel/CarouselView.java:98-108 | the indicators container starts empty |
| `Carousel.CarouselView.GetIndicator` | src/com/lillicoder/lib/uiwidgets/carousel/CarouselView.java:142-144 | the indicator at a valid index, null outside |
| `Carousel.CarouselView.GenerateIndicators` | src/com/lillicoder/lib/uiwidgets/carousel/CarouselView.java:124-134 | discards all indicators and creates exactly `count`, only index 0 active |
| `Carousel.CarouselView.SetPagerAdapter` | src/com/lillicoder/lib/uiwidgets/carousel/CarouselView.java:150-155 | rebuilds the indicators from the adapter's page count |
| `Carousel.CarouselView.OnPageSelected` | src/com/lillicoder/lib/uiwidgets/carousel/CarouselView.java:47-81 | the new flags are `SelectPage` of the old ones |
| `Tabs.UniqueTagsCount` | src/com/lillicoder/lib/uiwidgets/tabs/FragmentTabsAdapter.java:117-119 | with distinct tags, the number of entries is the number of tags |
| `Tabs.PutKeepsUnique` | src/com/lillicoder/lib/uiwidgets/tabs/FragmentTabsAdapter.java:110 | a put keeps the tags distinct and adds its tag to the tag set |
| `Tabs.PutNewTag` | src/com/lillicoder/lib/uiwidgets/tabs/FragmentTabsAdapter.java:110 | a new tag's info is appended as the last entry |
| `Tabs.PutExistingTag` | src/com/lillicoder/lib/uiwidgets/tabs/FragmentTabsAdapter.java:110 | an existing tag keeps its position and only its info is replaced, so the count stays |
| `Tabs.FragmentTabsAdapter.constructor` | src/com/lillicoder/lib/uiwidgets/tabs/FragmentTabsAdapter.java:92 | the map starts empty |
| `Tabs.FragmentTabsAdapter.AddTab` | src/com/lillicoder/lib/uiwidgets/tabs/FragmentTabsAdapter.java:105-114 | puts `TabInfo(tag, class, arguments)` under the tag, keeping tags distinct |
| `Tabs.FragmentTabsAdapter.GetCount` | src/com/lillicoder/lib/uiwidgets/tabs/FragmentTabsAdapter.java:116-119 | the number of distinct tags stored |
| `Tabs.FragmentTabsAdapter.GetTabInfoByPosition` | src/com/lillicoder/lib/uiwidgets/tabs/FragmentTabsAdapter.java:135-147 | a negative position fails the assertion; otherwise the info at that position in insertion order, or null past the end |
| `Tabs.FragmentTabsAdapter.GetItem` | src/com/lillicoder/lib/uiwidgets/tabs/FragmentTabsAdapter.java:121-127 | the info for a valid position; null dereference past the end; assertion failure below 0 |

## Left out

- Logging: the `Log.w` warnings in `getPositionForSection` and `getSectionForPosition` are side effects only and are not modelled.
- The `null` check on the indexer's input (`Assert.assertTrue(sections != null)`) is not modelled: a Dafny sequence is never null.
- Java `int` overflow: sizes and positions are unbounded integers, so the running sum in the indexer's constructor cannot wrap as it would past 2^31 - 1 items.
- The outer `IndexableListAdapter`: its constructor is empty and stores nothing, so there is no behaviour to model.
- `IndexableList.iterator`, `listIterator` (both), `subList` (a live view), `toArray(T[])`, `containsAll`, `removeAll` and `retainAll`: iteration, views and bulk operations on foreign collections are not modelled.
- `IndexableList`: items are compared with Dafny equality for Java's `equals`; the `Object` arguments of `contains`, `indexOf`, `lastIndexOf` and `remove(Object)` are restricted to the item type; labels (`CharSequence`) are strings; `compareTo` accepts only an `IndexableList`, not any `Indexable`.
- `Lists.IndexableList.CompareTo`: the key type's own `compareTo` is foreign code, so it is a parameter of the model.
- `Carousel.CarouselView.OnPageSelected`: the pager adapter is outside the model, so its page count is a parameter. A call made before `setPagerAdapter`, where the adapter is still null, is not modelled.
- `CarouselView`: layout inflation, the `ViewPager`, `onPageScrolled`/`onPageScrollStateChanged`, and the indicator drawables (`CarouselIndicatorView` is reduced to its flag).
- `FragmentTabsAdapter`: the `TabHost` and `ViewPager` wiring, `tabHost.addTab`, `notifyDataSetChanged`, `DummyTabFactory`, the focus workaround in `onPageSelected`/`onTabChanged`, and fragment instantiation in `getItem`.
- `Tabs.FragmentTabsAdapter.GetItem`: it returns the looked-up `TabInfo` instead of a fragment instantiated from it, because `Fragment.instantiate` is framework code.
- `TabInfo`: the fragment class is its name, the `Bundle` is a string map, and the unused `_fragment` field is left out.
- Everything else in the toolkit (QuickActionMenu, dialogs, spinners, styles, list item views) is view plumbing, not part of this model.

## Findings

| source | as written | input that shows it | evidently intended | confidence | as-written member | corrected member |
|---|---|---|---|---|---|---|
| src/com/lillicoder/lib/uiwidgets/list/IndexableListAdapter.java:124 | a negative search result r becomes `r - 2` | sizes 3, 2, 1 (starts 0, 3, 5), position 4: returns -5 | `-r - 2` = 1, the section owning the position, as the comment at lines 116-123 works out | high; not executed | `SectionIndex.CommentExample` | `SectionIndex.Indexer.GetSectionForPositionIntended` |
| src/com/lillicoder/lib/uiwidgets/list/IndexableListAdapter.java:114 | an exact match returns whichever equal start binarySearch hits | sizes 3, 0, 5 (starts 0, 3, 3), position 3: returns 1, an empty section | 2, the section that holds position 3 | medium; not executed | `SectionIndex.EmptySectionExample` | `SectionIndex.Indexer.GetSectionForPositionIntended` |
| src/com/lillicoder/lib/uiwidgets/list/IndexableListAdapter.java:103-104 | reads `mSectionStartPositions[length - 1]` before any range check | no sections, any position: ArrayIndexOutOfBoundsException | -1 (`INVALID_SECTION`), as `getPositionForSection` answers for every section of an empty index | medium; not executed | `SectionIndex.NoSectionsExample` | `SectionIndex.Indexer.GetSectionForPositionIntended` |

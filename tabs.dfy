/**
 * The tab registry of `FragmentTabsAdapter`: an insertion-ordered map from
 * tab tag to `TabInfo` (a `LinkedHashMap`), kept as a sequence of entries
 * with distinct tags.
 */
module Tabs {
  import opened Common

  /** The argument `Bundle`, as string keys and values. */
  type Bundle = map<string, string>

  /** `TabInfo`: the tag, the fragment class name and its arguments. */
  datatype TabInfo = TabInfo(tag: string, fragmentClassName: string, arguments: Bundle)

  /** One map entry: a tag and its info. */
  type Entry = (string, TabInfo)

  predicate UniqueTags(entries: seq<Entry>) {
    forall i, j :: 0 <= i < j < |entries| ==> entries[i].0 != entries[j].0
  }

  function Tags(entries: seq<Entry>): set<string> {
    set i | 0 <= i < |entries| :: entries[i].0
  }

  /** The position of `tag` among the entries, or -1. */
  function TagIndex(entries: seq<Entry>, tag: string): (r: int)
    ensures -1 <= r < |entries|
    ensures r >= 0 ==> entries[r].0 == tag
    ensures r == -1 <==> tag !in Tags(entries)
  {
    if entries == [] then -1
    else if entries[|entries| - 1].0 == tag then |entries| - 1
    else
      var init := entries[..|entries| - 1];
      assert Tags(entries) == Tags(init) + {entries[|entries| - 1].0} by {
        assert forall i :: 0 <= i < |init| ==> init[i] == entries[i];
      }
      TagIndex(init, tag)
  }

  /**
   * `LinkedHashMap.put(tag, info)`: a new tag goes last; an existing tag
   * keeps its place and gets the new info.
   */
  function Put(entries: seq<Entry>, tag: string, info: TabInfo): seq<Entry> {
    var i := TagIndex(entries, tag);
    if i < 0 then entries + [(tag, info)] else entries[i := (tag, info)]
  }

  /** With distinct tags, the number of entries is the number of tags. */
  lemma {:induction false} UniqueTagsCount(entries: seq<Entry>)
    requires UniqueTags(entries)
    ensures |Tags(entries)| == |entries|
  {
    if entries != [] {
      var init := entries[..|entries| - 1];
      var last := entries[|entries| - 1].0;
      assert Tags(entries) == Tags(init) + {last} by {
        assert forall i :: 0 <= i < |init| ==> init[i] == entries[i];
      }
      assert last !in Tags(init);
      UniqueTagsCount(init);
    }
  }

  /** A put keeps the tags distinct and adds its tag to them. */
  lemma PutKeepsUnique(entries: seq<Entry>, tag: string, info: TabInfo)
    requires UniqueTags(entries)
    ensures UniqueTags(Put(entries, tag, info))
    ensures Tags(Put(entries, tag, info)) == Tags(entries) + {tag}
  {
    var r := Put(entries, tag, info);
    var i := TagIndex(entries, tag);
    if i < 0 {
      assert forall k :: 0 <= k < |entries| ==> r[k] == entries[k];
      assert r[|entries|].0 == tag;
    } else {
      assert forall k :: 0 <= k < |r| ==> r[k].0 == entries[k].0;
    }
  }

  /** A new tag is appended: it becomes the last entry and the count grows by one. */
  lemma PutNewTag(entries: seq<Entry>, tag: string, info: TabInfo)
    requires tag !in Tags(entries)
    ensures Put(entries, tag, info) == entries + [(tag, info)]
  {
  }

  /** An existing tag keeps its position; only its info changes and the count stays. */
  lemma PutExistingTag(entries: seq<Entry>, tag: string, info: TabInfo, i: int)
    requires UniqueTags(entries)
    requires 0 <= i < |entries| && entries[i].0 == tag
    ensures Put(entries, tag, info) == entries[i := (tag, info)]
  {
  }

  class FragmentTabsAdapter {
    /** `_tabs`, in insertion order. */
    var tabs: seq<Entry>

    ghost predicate Valid()
      reads this
    {
      UniqueTags(tabs)
    }

    /** A fresh adapter has no tabs. */
    constructor ()
      ensures Valid() && tabs == []
    {
      tabs := [];
    }

    /**
     * The map part of `addTab`: stores a new `TabInfo` under the `TabSpec`'s tag.
     */
    method AddTab(tag: string, fragmentClassName: string, arguments: Bundle)
      requires Valid()
      modifies this
      ensures Valid()
      ensures tabs == Put(old(tabs), tag, TabInfo(tag, fragmentClassName, arguments))
    {
      var info := TabInfo(tag, fragmentClassName, arguments);
      PutKeepsUnique(tabs, tag, info);
      tabs := Put(tabs, tag, info);
    }

    /** `getCount()`: the number of distinct tags stored. */
    function GetCount(): (n: nat)
      reads this
      requires Valid()
      ensures n == |Tags(tabs)|
    {
      UniqueTagsCount(tabs);
      |tabs|
    }

    /**
     * `getTabInfoByPosition(position)`: fails its assertion on a negative
     * position; otherwise walks the entries counting down, giving the entry at
     * that position in insertion order, or `null` past the end.
     */
    method GetTabInfoByPosition(position: int) returns (r: Result<Option<TabInfo>>)
      ensures position < 0 <==> r.Thrown?
      ensures r.Thrown? ==> r.exception == AssertionFailed
      ensures 0 <= position < |tabs| ==> r == Ok(Some(tabs[position].1))
      ensures position >= |tabs| ==> r == Ok(None)
    {
      if position < 0 {
        return Thrown(AssertionFailed);
      }
      var index := position;
      var k := 0;
      while k < |tabs|
        invariant 0 <= k <= |tabs|
        invariant index == position - k && index >= 0
      {
        if index == 0 {
          return Ok(Some(tabs[k].1));
        }
        index := index - 1;
        k := k + 1;
      }
      return Ok(None);
    }

    /**
     * The lookup in `getItem(position)`: the info whose fragment it would
     * instantiate; dereferencing the `null` returned past the end throws.
     */
    method GetItem(position: int) returns (r: Result<TabInfo>)
      ensures position < 0 ==> r == Thrown(AssertionFailed)
      ensures position >= |tabs| ==> r == Thrown(NullPointer)
      ensures 0 <= position < |tabs| ==> r == Ok(tabs[position].1)
    {
      var info := GetTabInfoByPosition(position);
      match info
      case Thrown(e) => return Thrown(e);
      case Ok(None) => return Thrown(NullPointer);
      case Ok(Some(i)) => return Ok(i);
    }
  }
}

/**
 * `IndexableList`: an ArrayList of items carrying a fixed index key and a
 * display label (the `Indexable` interface). Every list operation passes
 * straight through to the ArrayList, whose semantics are modelled here on a
 * `seq`; Java `equals` on items is Dafny equality.
 */
module Lists {
  import opened Common

  // ---- ArrayList semantics on sequences ----

  /** `s` with `e` placed at index `i`; later items move up by one. */
  function InsertAt<E>(s: seq<E>, i: nat, e: E): (r: seq<E>)
    requires i <= |s|
    ensures |r| == |s| + 1 && r[i] == e
    ensures forall j :: 0 <= j < i ==> r[j] == s[j]
    ensures forall j :: i < j < |r| ==> r[j] == s[j - 1]
  {
    s[..i] + [e] + s[i..]
  }

  /** `s` with every item of `c` placed, in order, from index `i`. */
  function InsertAllAt<E>(s: seq<E>, i: nat, c: seq<E>): (r: seq<E>)
    requires i <= |s|
    ensures |r| == |s| + |c|
    ensures forall j :: 0 <= j < i ==> r[j] == s[j]
    ensures forall j :: 0 <= j < |c| ==> r[i + j] == c[j]
    ensures forall j :: i <= j < |s| ==> r[j + |c|] == s[j]
  {
    s[..i] + c + s[i..]
  }

  /** `s` without the item at index `i`; later items move down by one. */
  function RemoveAt<E>(s: seq<E>, i: nat): (r: seq<E>)
    requires i < |s|
    ensures |r| == |s| - 1
    ensures forall j :: 0 <= j < i ==> r[j] == s[j]
    ensures forall j :: i <= j < |r| ==> r[j] == s[j + 1]
  {
    s[..i] + s[i + 1..]
  }

  /** The index of the first occurrence of `x` in `s`, or -1. */
  function FirstIndex<E(==)>(s: seq<E>, x: E): (r: int)
    ensures -1 <= r < |s|
    ensures r == -1 <==> x !in s
    ensures r >= 0 ==> s[r] == x && x !in s[..r]
  {
    if s == [] then -1
    else if s[0] == x then 0
    else
      var k := FirstIndex(s[1..], x);
      assert s[1..][..k + 1] == s[1..k + 2] by { if k >= 0 { } }
      if k < 0 then -1 else k + 1
  }

  /** The index of the last occurrence of `x` in `s`, or -1. */
  function LastIndex<E(==)>(s: seq<E>, x: E): (r: int)
    ensures -1 <= r < |s|
    ensures r == -1 <==> x !in s
    ensures r >= 0 ==> s[r] == x && x !in s[r + 1..]
  {
    if s == [] then -1
    else if s[|s| - 1] == x then |s| - 1
    else
      assert s == s[..|s| - 1] + [s[|s| - 1]];
      LastIndex(s[..|s| - 1], x)
  }

  /** `s` without the first occurrence of `x` (unchanged when there is none). */
  function RemoveFirst<E(==)>(s: seq<E>, x: E): seq<E> {
    var i := FirstIndex(s, x);
    if i < 0 then s else RemoveAt(s, i)
  }

  /** Adding at `i` and then removing at `i` gives the list back. */
  lemma RemoveAtInsertAt<E>(s: seq<E>, i: nat, e: E)
    requires i <= |s|
    ensures RemoveAt(InsertAt(s, i, e), i) == s
  {
  }

  /** Removing at `i` and putting the removed item back at `i` gives the list back. */
  lemma InsertAtRemoveAt<E>(s: seq<E>, i: nat)
    requires i < |s|
    ensures InsertAt(RemoveAt(s, i), i, s[i]) == s
  {
  }

  /** Removing an item by value drops exactly one occurrence of it when there is one. */
  lemma RemoveFirstMultiset<E>(s: seq<E>, x: E)
    ensures x in s ==> multiset(RemoveFirst(s, x)) == multiset(s) - multiset{x}
    ensures x !in s ==> RemoveFirst(s, x) == s
  {
    var i := FirstIndex(s, x);
    if i >= 0 {
      assert s == s[..i] + [x] + s[i + 1..];
      assert RemoveFirst(s, x) == s[..i] + s[i + 1..];
    }
  }

  /** The first and the last occurrence agree on whether `x` occurs, and are ordered. */
  lemma FirstBeforeLast<E>(s: seq<E>, x: E)
    ensures FirstIndex(s, x) <= LastIndex(s, x)
    ensures FirstIndex(s, x) == -1 <==> LastIndex(s, x) == -1
  {
    var l := LastIndex(s, x);
    if l >= 0 {
      forall j | l < j < |s|
        ensures s[j] != x
      {
        assert s[l + 1..][j - l - 1] == s[j];
      }
    }
  }

  // ---- the list class ----

  /** A list of items of type `E` indexed by a key of type `K`. */
  class IndexableList<K, E(==)> {
    /** The index key (`getIndexKey`); no method changes it. */
    const key: K
    /** The display label (`getIndexLabel`); no method changes it. */
    const displayLabel: string
    /** The contents of the backing ArrayList. */
    var items: seq<E>

    /** `IndexableList(key, displayLabel)`: an empty list. */
    constructor (key: K, displayLabel: string)
      ensures this.key == key && this.displayLabel == displayLabel
      ensures items == []
    {
      this.key := key;
      this.displayLabel := displayLabel;
      items := [];
    }

    /**
     * `IndexableList(key, displayLabel, capacity)`: an empty list; the capacity is
     * only a storage hint, but ArrayList rejects a negative one.
     */
    static method WithCapacity(key: K, displayLabel: string, capacity: int) returns (r: Result<IndexableList<K, E>>)
      ensures capacity < 0 <==> r.Thrown?
      ensures r.Thrown? ==> r.exception == IllegalArgument
      ensures r.Ok? ==> fresh(r.value) && r.value.key == key && r.value.displayLabel == displayLabel && r.value.items == []
    {
      if capacity < 0 {
        return Thrown(IllegalArgument);
      }
      var list := new IndexableList(key, displayLabel);
      return Ok(list);
    }

    /** `size()`. */
    function Size(): (n: nat)
      reads this
      ensures n == |items|
    {
      |items|
    }

    /** `isEmpty()`. */
    function IsEmpty(): (b: bool)
      reads this
      ensures b <==> Size() == 0
    {
      items == []
    }

    /** `get(location)`. */
    function Get(location: int): (r: Result<E>)
      reads this
      ensures r.Ok? <==> 0 <= location < Size()
      ensures r.Ok? ==> r.value == items[location]
      ensures r.Thrown? ==> r.exception == IndexOutOfBounds(location)
    {
      if 0 <= location < |items| then Ok(items[location]) else Thrown(IndexOutOfBounds(location))
    }

    /** `add(object)`: appends and always reports a change. */
    method Add(e: E) returns (changed: bool)
      modifies this
      ensures changed
      ensures items == old(items) + [e]
    {
      items := items + [e];
      changed := true;
    }

    /** `add(location, object)`. */
    method AddAt(location: int, e: E) returns (r: Outcome)
      modifies this
      ensures r == Done <==> 0 <= location <= old(|items|)
      ensures r.Failed? ==> r.exception == IndexOutOfBounds(location) && items == old(items)
      ensures r == Done ==> items == InsertAt(old(items), location, e)
    {
      if location < 0 || location > |items| {
        return Failed(IndexOutOfBounds(location));
      }
      items := InsertAt(items, location, e);
      r := Done;
    }

    /** `addAll(collection)`: appends; reports a change when `c` is non-empty. */
    method AddAll(c: seq<E>) returns (changed: bool)
      modifies this
      ensures changed <==> c != []
      ensures items == old(items) + c
    {
      items := items + c;
      changed := |c| != 0;
    }

    /** `addAll(location, collection)`. */
    method AddAllAt(location: int, c: seq<E>) returns (r: Result<bool>)
      modifies this
      ensures r.Ok? <==> 0 <= location <= old(|items|)
      ensures r.Thrown? ==> r.exception == IndexOutOfBounds(location) && items == old(items)
      ensures r.Ok? ==> (r.value <==> c != []) && items == InsertAllAt(old(items), location, c)
    {
      if location < 0 || location > |items| {
        return Thrown(IndexOutOfBounds(location));
      }
      items := InsertAllAt(items, location, c);
      r := Ok(|c| != 0);
    }

    /** `clear()`. */
    method Clear()
      modifies this
      ensures items == [] && IsEmpty() && Size() == 0
    {
      items := [];
    }

    /** `indexOf(object)`: a forward scan. */
    method IndexOf(x: E) returns (r: int)
      ensures r == FirstIndex(items, x)
    {
      var i := 0;
      while i < |items|
        invariant 0 <= i <= |items|
        invariant x !in items[..i]
      {
        if items[i] == x {
          assert items[..i] + items[i..] == items;
          return i;
        }
        assert items[..i + 1] == items[..i] + [items[i]];
        i := i + 1;
      }
      assert items[..i] == items;
      return -1;
    }

    /** `lastIndexOf(object)`: a backward scan. */
    method LastIndexOf(x: E) returns (r: int)
      ensures r == LastIndex(items, x)
    {
      var i := |items|;
      while i > 0
        invariant 0 <= i <= |items|
        invariant x !in items[i..]
      {
        if items[i - 1] == x {
          return i - 1;
        }
        assert items[i - 1..] == [items[i - 1]] + items[i..];
        i := i - 1;
      }
      return -1;
    }

    /** `contains(object)`: `indexOf(object) >= 0`. */
    method Contains(x: E) returns (b: bool)
      ensures b <==> x in items
    {
      var i := IndexOf(x);
      b := i >= 0;
    }

    /** `remove(location)`: returns the removed item. */
    method Remove(location: int) returns (r: Result<E>)
      modifies this
      ensures r.Ok? <==> 0 <= location < old(|items|)
      ensures r.Thrown? ==> r.exception == IndexOutOfBounds(location) && items == old(items)
      ensures r.Ok? ==> r.value == old(items)[location] && items == RemoveAt(old(items), location)
    {
      if location < 0 || location >= |items| {
        return Thrown(IndexOutOfBounds(location));
      }
      r := Ok(items[location]);
      items := RemoveAt(items, location);
    }

    /** `remove(object)`: removes the first occurrence, reporting whether there was one. */
    method RemoveObject(x: E) returns (changed: bool)
      modifies this
      ensures changed <==> x in old(items)
      ensures items == RemoveFirst(old(items), x)
    {
      var i := IndexOf(x);
      if i < 0 {
        return false;
      }
      items := RemoveAt(items, i);
      changed := true;
    }

    /** `set(location, object)`: returns the item it replaces. */
    method Set(location: int, e: E) returns (r: Result<E>)
      modifies this
      ensures r.Ok? <==> 0 <= location < old(|items|)
      ensures r.Thrown? ==> r.exception == IndexOutOfBounds(location) && items == old(items)
      ensures r.Ok? ==> r.value == old(items)[location] && items == old(items)[location := e]
    {
      if location < 0 || location >= |items| {
        return Thrown(IndexOutOfBounds(location));
      }
      r := Ok(items[location]);
      items := items[location := e];
    }

    /** `toArray()`: a fresh array holding the items in order. */
    method ToArray() returns (a: array<E>)
      ensures fresh(a) && a[..] == items
    {
      a := new E[|items|](i requires 0 <= i < |items| reads this => items[i]);
    }

    /**
     * `compareTo(another)`: the order of the keys, as given by the key type's
     * `compareTo` (the parameter `compare`); labels and items play no part.
     */
    function CompareTo(another: IndexableList<K, E>, compare: (K, K) -> int): (r: int)
      ensures r == compare(key, another.key)
    {
      compare(key, another.key)
    }
  }

  /** Two lists with equal keys compare alike against any list, whatever their labels and items. */
  lemma CompareToIgnoresContents<K, E>(a: IndexableList<K, E>, b: IndexableList<K, E>, another: IndexableList<K, E>, compare: (K, K) -> int)
    requires a.key == b.key
    ensures a.CompareTo(another, compare) == b.CompareTo(another, compare)
    ensures another.CompareTo(a, compare) == another.CompareTo(b, compare)
  {
  }
}

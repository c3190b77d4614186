/** The singly linked list and the sorted list of lib/list.cc.  A list refines
    the sequence of its items; the spine is the sequence of its cells. */
module LinkedList {
  import opened Collections

  /** Cutting out one element, or putting a new one in, makes no duplicates. */
  lemma NoDupCut<T>(s: seq<T>, i: nat)
    requires NoDup(s) && i < |s|
    ensures NoDup(s[..i] + s[i + 1..])
  {}

  lemma NoDupAt<T>(s: seq<T>, i: nat)
    requires NoDup(s) && i < |s|
    ensures forall j | 0 <= j < |s| && j != i :: s[j] != s[i]
  {}

  lemma NoDupPut<T>(s: seq<T>, i: nat, x: T)
    requires NoDup(s) && i <= |s| && x !in s
    ensures NoDup(s[..i] + [x] + s[i..])
  {}

  // ------------------------------------------------- what sorted insertion is

  type Compare<!T> = (T, T) -> int

  ghost predicate TotalPreorder<T(!new)>(compare: Compare<T>) {
    && (forall x, y :: compare(x, y) < 0 <==> compare(y, x) > 0)
    && (forall x, y, z :: compare(x, y) <= 0 && compare(y, z) <= 0 ==> compare(x, z) <= 0)
  }

  ghost predicate Sorted<T>(compare: Compare<T>, s: seq<T>) {
    forall i, j | 0 <= i < j < |s| :: compare(s[i], s[j]) <= 0
  }

  /** The index of the first element that is bigger than x. */
  function Position<T>(compare: Compare<T>, s: seq<T>, x: T): (k: nat)
    ensures k <= |s|
    ensures forall i | 0 <= i < k :: compare(x, s[i]) >= 0
    ensures k < |s| ==> compare(x, s[k]) < 0
  {
    if s == [] || compare(x, s[0]) < 0 then 0 else 1 + Position(compare, s[1..], x)
  }

  function Inserted<T>(compare: Compare<T>, s: seq<T>, x: T): seq<T> {
    var k := Position(compare, s, x);
    s[..k] + [x] + s[k..]
  }

  /** Sorted insertion keeps the order, and the new element goes after every
      element that compares equal to it. */
  lemma InsertionIsStable<T(!new)>(compare: Compare<T>, s: seq<T>, x: T)
    requires TotalPreorder(compare) && Sorted(compare, s)
    ensures Sorted(compare, Inserted(compare, s, x))
    ensures forall i | 0 <= i < |s| ::
      i < Position(compare, s, x) <==> compare(s[i], x) <= 0
  {
    hide TotalPreorder, Position;
    forall i | 0 <= i < |s| ensures i < Position(compare, s, x) <==> compare(s[i], x) <= 0 {
      AfterPosition(compare, s, x, i);
    }
    var r := Inserted(compare, s, x);
    forall i, j | 0 <= i < j < |r| ensures compare(r[i], r[j]) <= 0 {
      PairOrdered(compare, s, x, i, j);
    }
  }

  lemma PairOrdered<T(!new)>(compare: Compare<T>, s: seq<T>, x: T, i: nat, j: nat)
    requires TotalPreorder(compare) && Sorted(compare, s) && i < j <= |s|
    ensures compare(Inserted(compare, s, x)[i], Inserted(compare, s, x)[j]) <= 0
  {
    var k := Position(compare, s, x);
    hide TotalPreorder, Position;
    if i == k {
      AfterPosition(compare, s, x, j - 1);
      Flip(compare, s[j - 1], x);
    } else if j == k {
      AfterPosition(compare, s, x, i);
    }
  }

  lemma InsertionAddsOne<T>(compare: Compare<T>, s: seq<T>, x: T)
    ensures multiset(Inserted(compare, s, x)) == multiset(s) + multiset{x}
  {
    var k := Position(compare, s, x);
    assert s == s[..k] + s[k..];
  }

  lemma AfterPosition<T(!new)>(compare: Compare<T>, s: seq<T>, x: T, i: nat)
    requires TotalPreorder(compare) && Sorted(compare, s) && i < |s|
    ensures i < Position(compare, s, x) <==> compare(s[i], x) <= 0
  {
    var k := Position(compare, s, x);
    hide TotalPreorder;
    Flip(compare, s[i], x);
    if k <= i {
      Flip(compare, s[k], x);
      if compare(s[i], x) <= 0 && k < i { Chain(compare, s[k], s[i], x); }
    }
  }

  lemma Flip<T(!new)>(compare: Compare<T>, x: T, y: T)
    requires TotalPreorder(compare)
    ensures compare(x, y) < 0 <==> compare(y, x) > 0
    ensures compare(x, y) > 0 <==> compare(y, x) < 0
  {}

  lemma Chain<T(!new)>(compare: Compare<T>, x: T, y: T, z: T)
    requires TotalPreorder(compare) && compare(x, y) <= 0 && compare(y, z) <= 0
    ensures compare(x, z) <= 0
  {}

  // ------------------------------------------------------------ the list itself

  class ListElement<T> {
    var item: T
    var next: ListElement?<T>

    constructor (itm: T)
      ensures item == itm && next == null
    {
      item, next := itm, null;
    }
  }

  class List<T(==)> {
    var first: ListElement?<T>
    var last: ListElement?<T>
    var numInList: nat
    ghost var spine: seq<ListElement<T>>
    ghost var contents: seq<T>    // the items, in order

    /** From first, the next pointers run through the spine and end at last. */
    ghost predicate Valid()
      reads this, spine
    {
      && numInList == |spine| == |contents|
      && NoDup(spine) && NoDup(contents)
      && (if spine == [] then first == null && last == null
          else first == spine[0] && last == spine[|spine| - 1])
      && (forall i {:trigger spine[i].next} | 0 <= i < |spine| :: spine[i].next == Cell(i + 1))
      && (forall i {:trigger spine[i].item} | 0 <= i < |spine| :: spine[i].item == contents[i])
    }

    ghost function Cell(i: nat): ListElement?<T>
      reads this
    {
      if i < |spine| then spine[i] else null
    }

    constructor ()
      ensures Valid() && contents == [] && spine == []
    {
      first, last, numInList, spine, contents := null, null, 0, [], [];
    }

    method Append(item: T)
      requires Valid() && item !in contents
      modifies this, spine
      ensures Valid() && contents == old(contents) + [item]
      ensures forall c | c in spine && c !in old(spine) :: fresh(c)
    {
      var element := new ListElement(item);
      if numInList == 0 {
        first := element;
        last := element;
      } else {
        last.next := element;
        last := element;
      }
      spine, contents := spine + [element], contents + [item];
      numInList := numInList + 1;
    }

    method Prepend(item: T)
      requires Valid() && item !in contents
      modifies this, spine
      ensures Valid() && contents == [item] + old(contents)
      ensures forall c | c in spine && c !in old(spine) :: fresh(c)
    {
      var element := new ListElement(item);
      if numInList == 0 {
        first := element;
        last := element;
      } else {
        element.next := first;
        first := element;
      }
      spine, contents := [element] + spine, [item] + contents;
      numInList := numInList + 1;
    }

    method RemoveFront() returns (thing: T)
      requires Valid() && contents != []
      modifies this
      ensures Valid() && [thing] + contents == old(contents)
      ensures spine == old(spine[1..])
    {
      thing := first.item;
      if first == last {
        first := null;
        last := null;
      } else {
        first := first.next;
      }
      spine, contents := spine[1..], contents[1..];
      numInList := numInList - 1;
    }

    method IsInList(item: T) returns (found: bool)
      requires Valid()
      ensures found <==> item in contents
    {
      var ptr := first;
      ghost var i := 0;
      while ptr != null
        invariant i <= |spine| && ptr == Cell(i)
        invariant item !in contents[..i]
        decreases |spine| - i
      {
        if item == ptr.item {
          assert contents[i] == item;
          return true;
        }
        ptr := ptr.next;
        i := i + 1;
      }
      assert contents[..i] == contents;
      found := false;
    }

    /** now is was without the first occurrence of item, at k. */
    static predicate Without(was: seq<T>, k: nat, item: T, now: seq<T>) {
      k < |was| && was[k] == item && item !in was[..k] && now == was[..k] + was[k + 1..]
    }

    /** Remove the first cell that holds item; there is no other. */
    method Remove(item: T)
      requires Valid() && item in contents
      modifies this, spine
      ensures Valid()
      ensures item !in contents && exists k :: Without(old(contents), k, item, contents)
      ensures forall c | c in spine :: c in old(spine)
    {
      ghost var was := contents;
      if item == first.item {
        var removed := RemoveFront();
        assert Without(was, 0, item, contents);
      } else {
        var prev := first;
        var ptr := first.next;
        ghost var i := 1;
        while ptr != null && item != ptr.item
          invariant 1 <= i <= |spine| && prev == spine[i - 1] && ptr == Cell(i)
          invariant item !in was[..i]
          decreases |spine| - i
        {
          assert was[i] != item;
          prev, ptr, i := ptr, ptr.next, i + 1;
        }
        assert was[..|was|] == was;
        Unlink(prev, ptr, i);
        assert Without(was, i, item, contents);
      }
    }

    /** The body of Remove's loop: cut ptr, which follows prev, out of the list. */
    method Unlink(prev: ListElement<T>, ptr: ListElement<T>, ghost i: nat)
      requires Valid() && 1 <= i < |spine| && prev == spine[i - 1] && ptr == spine[i]
      modifies this, prev
      ensures Valid() && contents == old(contents[..i] + contents[i + 1..])
      ensures spine == old(spine[..i] + spine[i + 1..])
    {
      hide NoDup;
      NoDupAt(spine, i - 1);
      NoDupCut(spine, i);
      NoDupCut(contents, i);
      prev.next := ptr.next;
      if prev.next == null {
        last := prev;
      }
      numInList := numInList - 1;
      spine, contents := spine[..i] + spine[i + 1..], contents[..i] + contents[i + 1..];
    }

    /** SortedList::Insert. */
    method Insert(item: T, compare: Compare<T>)
      requires Valid() && item !in contents
      modifies this, spine
      ensures Valid() && contents == Inserted(compare, old(contents), item)
    {
      var element := new ListElement(item);
      if numInList == 0 {
        first := element;
        last := element;
        spine, contents := [element], [item];
      } else if compare(item, first.item) < 0 {
        element.next := first;
        first := element;
        spine, contents := [element] + spine, [item] + contents;
      } else {
        var ptr := FindPlace(item, compare);
        Link(ptr, element, Position(compare, contents, item) - 1);
        return;
      }
      numInList := numInList + 1;
    }

    /** The loop of Insert: the last cell whose item is not greater. */
    method FindPlace(item: T, compare: Compare<T>) returns (ptr: ListElement<T>)
      requires Valid() && contents != [] && compare(item, contents[0]) >= 0
      ensures 0 < Position(compare, contents, item) <= |spine| && ptr == spine[Position(compare, contents, item) - 1]
    {
      ptr := first;
      ghost var i := 0;
      while ptr.next != null && compare(item, ptr.next.item) >= 0
        invariant i < |spine| && ptr == spine[i]
        invariant forall j | 0 <= j <= i :: compare(item, contents[j]) >= 0
        decreases |spine| - i
      {
        ptr, i := ptr.next, i + 1;
      }
      PositionIs(compare, contents, item, i + 1);
    }

    /** The two ways Insert puts an element after ptr. */
    method Link(ptr: ListElement<T>, element: ListElement<T>, ghost i: nat)
      requires Valid() && i < |spine| && ptr == spine[i]
      requires element !in spine && element.next == null && element.item !in contents
      modifies this, ptr, element
      ensures Valid() && spine == old(spine[..i + 1] + [element] + spine[i + 1..])
      ensures contents == old(contents[..i + 1] + [element.item] + contents[i + 1..])
    {
      hide NoDup;
      NoDupAt(spine, i);
      NoDupPut(spine, i + 1, element);
      NoDupPut(contents, i + 1, element.item);
      if ptr.next != null {
        element.next := ptr.next;
        ptr.next := element;
      } else {
        last.next := element;
        last := element;
      }
      numInList := numInList + 1;
      spine := spine[..i + 1] + [element] + spine[i + 1..];
      contents := contents[..i + 1] + [element.item] + contents[i + 1..];
    }

    /** SanityCheck finds nothing wrong with a list that the operations built. */
    method SanityCheck() returns (ok: bool)
      requires Valid()
      ensures ok
    {
      if first == null {
        ok := numInList == 0 && last == null;
      } else if first == last {
        ok := numInList == 1 && last.next == null;
      } else {
        var numFound, ptr := 1, first;
        ok := true;
        while ptr != last
          invariant ok && 1 <= numFound <= numInList && ptr == spine[numFound - 1]
          decreases numInList - numFound
        {
          ptr := ptr.next;
          numFound := numFound + 1;
          ok := ok && numFound <= numInList;
        }
        ok := ok && numFound == numInList && last.next == null;
      }
    }

    /** SortedList::SanityCheck: nor with the order, if it was kept by Insert. */
    method SortedSanityCheck(compare: Compare<T>) returns (ok: bool)
      requires Valid() && Sorted(compare, contents)
      ensures ok
    {
      ok := SanityCheck();
      if first != last {
        var prev, ptr := first, first.next;
        ghost var i := 1;
        while ptr != null
          invariant ok && 1 <= i <= |spine| && prev == spine[i - 1] && ptr == Cell(i)
          decreases |spine| - i
        {
          ok := ok && compare(prev.item, ptr.item) <= 0;
          prev, ptr, i := ptr, ptr.next, i + 1;
        }
      }
    }
  }

  lemma {:induction false} PositionIs<T>(compare: Compare<T>, s: seq<T>, x: T, k: nat)
    requires k <= |s| && forall i | 0 <= i < k :: compare(x, s[i]) >= 0
    requires k < |s| ==> compare(x, s[k]) < 0
    ensures Position(compare, s, x) == k
  {}
}

/** Kernel lists: what the list operations mean on plain sequences, and the
    pointer structure of list.c that implements them.

    A kernel list is used in two ways.  A sorted list keeps its items in item
    value order and is read from the head.  A round-robin list is walked with
    an index that remembers the last item handed out.
 */
module ListModel {

  /** One item of a sorted list: its item value and whoever owns the item. */
  datatype Entry<+T> = Entry(value: nat, owner: T)

  /** Insertion in item value order, behind the items of equal value. */
  function InsertSorted<T>(s: seq<Entry<T>>, e: Entry<T>): (r: seq<Entry<T>>) {
    if s == [] || s[0].value > e.value then [e] + s
    else [s[0]] + InsertSorted(s[1..], e)
  }

  ghost predicate Sorted<T>(s: seq<Entry<T>>) {
    forall i, j :: 0 <= i < j < |s| ==> s[i].value <= s[j].value
  }

  /** The place an entry is inserted at. */
  ghost predicate InsertedAt<T>(s: seq<Entry<T>>, e: Entry<T>, r: seq<Entry<T>>, k: nat) {
    && k <= |s|
    && r == s[..k] + [e] + s[k..]
    && (forall i :: 0 <= i < k ==> s[i].value <= e.value)
    && (k < |s| ==> e.value < s[k].value)
  }

  /** InsertSorted puts the entry behind every leading entry that is not larger. */
  lemma {:induction false} InsertSortedPlace<T>(s: seq<Entry<T>>, e: Entry<T>) returns (k: nat)
    ensures InsertedAt(s, e, InsertSorted(s, e), k)
  {
    if s == [] || s[0].value > e.value {
      k := 0;
    } else {
      var k' := InsertSortedPlace(s[1..], e);
      k := k' + 1;
      assert s[..k] == [s[0]] + s[1..][..k'];
      assert s[k..] == s[1..][k'..];
    }
  }

  /** Only one place qualifies, so a search that finds one has computed InsertSorted. */
  lemma {:induction false} InsertSortedUnique<T>(s: seq<Entry<T>>, e: Entry<T>, r: seq<Entry<T>>, k: nat)
    requires InsertedAt(s, e, r, k)
    ensures r == InsertSorted(s, e)
  {
    var k' := InsertSortedPlace(s, e);
    if k < k' {
      assert false;
    } else if k' < k {
      assert false;
    }
  }

  /** A sorted list stays sorted and the entry goes behind its equals (stable). */
  lemma InsertSortedStable<T>(s: seq<Entry<T>>, e: Entry<T>) returns (k: nat)
    requires Sorted(s)
    ensures InsertedAt(s, e, InsertSorted(s, e), k)
    ensures Sorted(InsertSorted(s, e))
    ensures forall i :: k <= i < |s| ==> e.value < s[i].value
  {
    k := InsertSortedPlace(s, e);
    PlaceKeepsSorted(s, e, InsertSorted(s, e), k);
  }

  lemma PlaceKeepsSorted<T>(s: seq<Entry<T>>, e: Entry<T>, r: seq<Entry<T>>, k: nat)
    requires Sorted(s) && InsertedAt(s, e, r, k)
    ensures Sorted(r) && forall i :: k <= i < |s| ==> e.value < s[i].value
  {
    PlaceByIndex(s, e, r, k);
    forall i, j | 0 <= i < j < |r|
      ensures r[i].value <= r[j].value
    {
    }
  }

  lemma PlaceByIndex<T>(s: seq<Entry<T>>, e: Entry<T>, r: seq<Entry<T>>, k: nat)
    requires InsertedAt(s, e, r, k)
    ensures |r| == |s| + 1
    ensures forall i :: 0 <= i < |r| ==> r[i] == if i < k then s[i] else if i == k then e else s[i - 1]
  {
  }

  /** The list gains exactly the new entry. */
  lemma InsertSortedContents<T>(s: seq<Entry<T>>, e: Entry<T>)
    ensures multiset(InsertSorted(s, e)) == multiset(s) + multiset{e}
  {
    var k := InsertSortedPlace(s, e);
    ContentsAround(s[..k], e, s[k..]);
    assert s == s[..k] + s[k..];
  }

  lemma ContentsAround<T>(a: seq<T>, x: T, b: seq<T>)
    ensures multiset(a + [x] + b) == multiset(a + b) + multiset{x}
  {
  }

  /** A round-robin list: the items in ring order and the index, where 0 is
      the end marker and k is the k-th item. */
  datatype Ring<T> = Ring(items: seq<T>, index: nat) {
    ghost predicate Valid() {
      index <= |items|
    }

    /** The order in which the next |items| selections hand the items out. */
    function VisitOrder(): seq<T>
      requires Valid()
    {
      items[index..] + items[..index]
    }

    /** The index after a selection: one on, skipping the end marker. */
    function NextIndex(): nat
      requires Valid() && items != []
    {
      if index == |items| then 1 else index + 1
    }

    function Next(): Ring<T>
      requires Valid() && items != []
    {
      Ring(items, NextIndex())
    }

    /** Insertion just before the index. */
    function InsertEnd(x: T): Ring<T>
      requires Valid()
    {
      if index == 0 then Ring(items + [x], 0)
      else Ring(items[..index - 1] + [x] + items[index - 1..], index + 1)
    }

    /** Removal of item k; an index on the item moves to its predecessor. */
    function RemoveAt(k: nat): Ring<T>
      requires Valid() && k < |items|
    {
      Ring(items[..k] + items[k + 1..], if k < index then index - 1 else index)
    }
  }

  /** A selection hands out the first of the visiting order and moves it to the back. */
  lemma NextRotates<T>(r: Ring<T>)
    requires r.Valid() && r.items != []
    ensures r.Next().Valid()
    ensures r.items[r.NextIndex() - 1] == r.VisitOrder()[0]
    ensures r.Next().VisitOrder() == r.VisitOrder()[1..] + [r.VisitOrder()[0]]
  {
    if r.index < |r.items| {
      assert r.items[..r.index + 1] == r.items[..r.index] + [r.items[r.index]];
    }
  }

  /** An item inserted at the end is visited after all others, except that
      the item last handed out still comes behind it. */
  lemma InsertEndVisitedLast<T>(r: Ring<T>, x: T)
    requires r.Valid()
    ensures r.InsertEnd(x).Valid()
    ensures var v := r.VisitOrder();
            r.InsertEnd(x).VisitOrder() ==
            if r.index == 0 then v + [x] else v[..|v| - 1] + [x] + v[|v| - 1..]
  {
    if r.index != 0 {
      var s := r.InsertEnd(x).items;
      assert s[r.index + 1..] == r.items[r.index..];
      assert s[..r.index + 1] == r.items[..r.index - 1] + [x] + [r.items[r.index - 1]];
    }
  }

  lemma RemoveBehindIndex<T>(r: Ring<T>, k: nat)
    requires r.Valid() && r.index <= k < |r.items|
    ensures var v, p := r.VisitOrder(), k - r.index;
            p < |v| && v[p] == r.items[k] && r.RemoveAt(k).VisitOrder() == v[..p] + v[p + 1..]
  {
    var s, v, p := r.RemoveAt(k), r.VisitOrder(), k - r.index;
    assert s.items[s.index..] == r.items[r.index..k] + r.items[k + 1..];
    assert s.items[..s.index] == r.items[..r.index];
    assert v[..p] == r.items[r.index..k];
    assert v[p + 1..] == r.items[k + 1..] + r.items[..r.index];
  }

  lemma RemoveBeforeIndex<T>(r: Ring<T>, k: nat)
    requires r.Valid() && k < r.index
    ensures var v, p := r.VisitOrder(), |r.items| - r.index + k;
            p < |v| && v[p] == r.items[k] && r.RemoveAt(k).VisitOrder() == v[..p] + v[p + 1..]
  {
    var s, v, p := r.RemoveAt(k), r.VisitOrder(), |r.items| - r.index + k;
    assert s.items[s.index..] == r.items[r.index..];
    assert s.items[..s.index] == r.items[..k] + r.items[k + 1..r.index];
    assert v[..p] == r.items[r.index..] + r.items[..k];
    assert v[p + 1..] == r.items[k + 1..r.index];
  }

  /** Removing an item leaves the visiting order of the others as it was. */
  lemma RemoveKeepsVisitOrder<T>(r: Ring<T>, k: nat)
    requires r.Valid() && k < |r.items|
    ensures r.RemoveAt(k).Valid()
    ensures var v, p := r.VisitOrder(), if r.index <= k then k - r.index else |r.items| - r.index + k;
            p < |v| && v[p] == r.items[k] && r.RemoveAt(k).VisitOrder() == v[..p] + v[p + 1..]
  {
    if r.index <= k {
      RemoveBehindIndex(r, k);
    } else {
      RemoveBeforeIndex(r, k);
    }
  }

  /** What n selections in a row hand out. */
  function Selections<T>(r: Ring<T>, n: nat): (s: seq<T>)
    requires r.Valid() && r.items != []
    ensures |s| == n
    decreases n
  {
    if n == 0 then [] else [r.items[r.NextIndex() - 1]] + Selections(r.Next(), n - 1)
  }

  /** The list n selections later. */
  function After<T>(r: Ring<T>, n: nat): (r': Ring<T>)
    requires r.Valid() && r.items != []
    ensures r'.Valid() && r'.items == r.items
    decreases n
  {
    if n == 0 then r else After(r.Next(), n - 1)
  }

  lemma FirstAndRest<T>(v: seq<T>, w: seq<T>, n: nat)
    requires 0 < n <= |v| && w == v[1..] + [v[0]]
    ensures [v[0]] + w[..n - 1] == v[..n]
  {
    assert w[..n - 1] == v[1..n];
  }

  lemma RotateOnce<T>(v: seq<T>, w: seq<T>, n: nat)
    requires 0 < n <= |v| && w == v[1..] + [v[0]]
    ensures w[n - 1..] + w[..n - 1] == v[n..] + v[..n]
  {
    FirstAndRest(v, w, n);
    assert w[n - 1..] == v[n..] + [v[0]];
  }

  lemma {:induction false} SelectionsFollow<T>(r: Ring<T>, n: nat)
    requires r.Valid() && r.items != [] && n <= |r.items|
    ensures Selections(r, n) == r.VisitOrder()[..n]
    decreases n
  {
    if n > 0 {
      var v, w := r.VisitOrder(), r.Next().VisitOrder();
      NextRotates(r);
      SelectionsFollow(r.Next(), n - 1);
      FirstAndRest(v, w, n);
    }
  }

  lemma {:induction false} SelectionsRotate<T>(r: Ring<T>, n: nat)
    requires r.Valid() && r.items != [] && n <= |r.items|
    ensures After(r, n).VisitOrder() == r.VisitOrder()[n..] + r.VisitOrder()[..n]
    decreases n
  {
    var v := r.VisitOrder();
    if n == 0 {
      assert v[0..] + v[..0] == v;
    } else {
      var w := r.Next().VisitOrder();
      NextRotates(r);
      SelectionsRotate(r.Next(), n - 1);
      RotateOnce(v, w, n);
    }
  }

  /** Selections on an unchanged list follow the visiting order, so the first
      |items| of them hand out every item exactly once, and the order is then
      what it was. */
  lemma SelectionsVisitAll<T>(r: Ring<T>, n: nat)
    requires r.Valid() && r.items != [] && n <= |r.items|
    ensures Selections(r, n) == r.VisitOrder()[..n]
    ensures After(r, n).VisitOrder() == r.VisitOrder()[n..] + r.VisitOrder()[..n]
  {
    SelectionsFollow(r, n);
    SelectionsRotate(r, n);
  }
}

/** list.c: doubly linked rings through an end marker. */
module PointerList {
  import opened ListModel

  class ListItem {
    var value: nat
    var next: ListItem?
    var prev: ListItem?
    var container: List?

    constructor (value: nat)
      ensures this.value == value && container == null
    {
      this.value, next, prev, container := value, null, null, null;
    }
  }

  ghost predicate Distinct(s: seq<ListItem>) {
    forall i, j :: 0 <= i < j < |s| ==> s[i] != s[j]
  }

  /** The place after s[k] in the ring s. */
  ghost function Succ(s: seq<ListItem>, k: nat): (n: nat)
    requires k < |s|
    ensures n < |s|
  {
    if k == |s| - 1 then 0 else k + 1
  }

  /** The items of s point to each other in both directions, around the ring. */
  ghost predicate Linked(s: seq<ListItem>)
    reads s`next, s`prev
  {
    forall i {:trigger Succ(s, i)} :: 0 <= i < |s| ==> s[i].next == s[Succ(s, i)] && s[Succ(s, i)].prev == s[i]
  }

  ghost function Splice(s: seq<ListItem>, k: nat, item: ListItem): (r: seq<ListItem>)
    requires k < |s|
    ensures |r| == |s| + 1
    ensures forall i :: 0 <= i < |r| ==> r[i] == if i <= k then s[i] else if i == k + 1 then item else s[i - 1]
  {
    s[..k + 1] + [item] + s[k + 1..]
  }

  lemma SpliceDistinct(s: seq<ListItem>, k: nat, item: ListItem)
    requires k < |s| && Distinct(s) && item !in s
    ensures Distinct(Splice(s, k, item))
  {
  }

  /** On the ring without its end marker, splicing before the index is InsertEnd. */
  lemma SpliceIsInsertEnd(s: seq<ListItem>, at: nat, item: ListItem)
    requires at < |s|
    ensures Ring(Splice(s, if at == 0 then |s| - 1 else at - 1, item)[1..], if at == 0 then 0 else at + 1)
         == Ring(s[1..], at).InsertEnd(item)
  {
    if at == 0 {
      assert Splice(s, |s| - 1, item)[1..] == s[1..] + [item];
    } else {
      assert Splice(s, at - 1, item)[1..] == s[1..][..at - 1] + [item] + s[1..][at - 1..];
    }
  }

  /** The four pointer writes that put an item behind s[k]. */
  method Link(ghost s: seq<ListItem>, ghost k: nat, before: ListItem, after: ListItem, item: ListItem)
    requires k < |s| && s[k] == before && s[Succ(s, k)] == after && Distinct(s) && item !in s
    requires Linked(s)
    modifies before`next, after`prev, item`next, item`prev
    ensures Linked(Splice(s, k, item))
  {
    item.next := after;
    item.prev := before;
    before.next := item;
    after.prev := item;
    ghost var r := Splice(s, k, item);
    forall i | 0 <= i < |r|
      ensures r[i].next == r[Succ(r, i)] && r[Succ(r, i)].prev == r[i]
    {
      if i < k {
        assert old(s[i].next) == s[Succ(s, i)] && old(s[Succ(s, i)].prev) == s[i];
      } else if i > k + 1 {
        assert old(s[i - 1].next) == s[Succ(s, i - 1)] && old(s[Succ(s, i - 1)].prev) == s[i - 1];
      }
    }
  }

  ghost function Unsplice(s: seq<ListItem>, k: nat): (r: seq<ListItem>)
    requires 1 <= k < |s|
    ensures |r| == |s| - 1
    ensures forall i :: 0 <= i < |r| ==> r[i] == if i < k then s[i] else s[i + 1]
  {
    s[..k] + s[k + 1..]
  }

  lemma UnspliceDistinct(s: seq<ListItem>, k: nat)
    requires 1 <= k < |s| && Distinct(s)
    ensures Distinct(Unsplice(s, k)) && s[k] !in Unsplice(s, k)
  {
  }

  lemma UnspliceIsRemoveAt(s: seq<ListItem>, at: nat, k: nat)
    requires 1 <= k < |s| && at < |s|
    ensures Ring(Unsplice(s, k)[1..], if k <= at then at - 1 else at) == Ring(s[1..], at).RemoveAt(k - 1)
  {
    assert Unsplice(s, k)[1..] == s[1..][..k - 1] + s[1..][k..];
  }

  /** The two pointer writes that take s[k] out of the ring. */
  method Unlink(ghost s: seq<ListItem>, ghost k: nat, item: ListItem, before: ListItem, after: ListItem)
    requires 1 <= k < |s| && s[k] == item && s[k - 1] == before && s[Succ(s, k)] == after && Distinct(s)
    requires Linked(s)
    modifies before`next, after`prev, item`container
    ensures item.container == null
    ensures Linked(Unsplice(s, k))
  {
    after.prev := before;
    before.next := after;
    item.container := null;
    ghost var r := Unsplice(s, k);
    forall i | 0 <= i < |r|
      ensures r[i].next == r[Succ(r, i)] && r[Succ(r, i)].prev == r[i]
    {
      if i < k - 1 {
        assert old(s[i].next) == s[Succ(s, i)] && old(s[Succ(s, i)].prev) == s[i];
      } else if i >= k {
        assert old(s[i + 1].next) == s[Succ(s, i + 1)] && old(s[Succ(s, i + 1)].prev) == s[i + 1];
      }
    }
  }

  class List {
    const maxDelay: nat    // portMAX_DELAY, the largest item value
    const end: ListItem    // the end marker
    var index: ListItem    // the item last handed out, or the end marker
    var count: nat

    /** The ring from the end marker on, and where the index is in it. */
    ghost var ring: seq<ListItem>
    ghost var at: nat

    ghost predicate Valid()
      reads this, ring
    {
      && |ring| == count + 1
      && ring[0] == end && end.value == maxDelay
      && Distinct(ring)
      && Linked(ring)
      && at < |ring| && index == ring[at]
      && (forall i :: 1 <= i < |ring| ==> ring[i].container == this && ring[i].value <= maxDelay)
    }

    /** The list as a round-robin list. */
    ghost function AsRing(): Ring<ListItem>
      requires Valid()
      reads this, ring
    {
      Ring(ring[1..], at)
    }

    /** The list as a list in item value order. */
    ghost function Entries(): seq<Entry<ListItem>>
      requires Valid()
      reads this, ring
    {
      EntriesOf(ring[1..])
    }

    static ghost function EntriesOf(items: seq<ListItem>): (s: seq<Entry<ListItem>>)
      reads items
      ensures |s| == |items| && forall i :: 0 <= i < |s| ==> s[i] == Entry(items[i].value, items[i])
    {
      seq(|items|, i requires 0 <= i < |items| reads items => Entry(items[i].value, items[i]))
    }

    static lemma SpliceEntries(s: seq<ListItem>, k: nat, item: ListItem)
      requires k < |s|
      ensures var es := EntriesOf(s[1..]);
              EntriesOf(Splice(s, k, item)[1..]) == es[..k] + [Entry(item.value, item)] + es[k..]
    {
    }

    constructor (maxDelay: nat)
      ensures Valid() && fresh(ring) && this.maxDelay == maxDelay
      ensures Entries() == [] && AsRing() == Ring([], 0)
    {
      this.maxDelay := maxDelay;
      var e := new ListItem(maxDelay);
      end, index, count := e, e, 0;
      ring, at := [e], 0;
      new;
      end.next, end.prev := end, end;
    }

    /** The tail shared by vListInsertEnd and vListInsert: the pointer writes,
        the container and the count. */
    method InsertAfter(before: ListItem, item: ListItem, ghost k: nat)
      requires Valid() && item !in ring && item.value <= maxDelay && k < |ring| && before == ring[k]
      modifies this, ring, item
      ensures Valid() && ring == Splice(old(ring), k, item) && index == old(index)
      ensures at == if old(at) <= k then old(at) else old(at) + 1
      ensures item.value == old(item.value) && forall i :: 0 <= i < |old(ring)| ==>
                old(ring)[i].value == old(ring[i].value)
    {
      assert Succ(ring, k) <= k + 1;
      Link(ring, k, before, before.next, item);
      Adopt(item, k);
    }

    /** The container and the count, once the item is linked in. */
    method Adopt(item: ListItem, ghost k: nat)
      requires k < |ring| && Linked(Splice(ring, k, item)) && item !in ring && item.value <= maxDelay
      requires |ring| == count + 1 && Distinct(ring) && ring[0] == end && end.value == maxDelay
      requires at < |ring| && index == ring[at]
      requires forall i :: 1 <= i < |ring| ==> ring[i].container == this && ring[i].value <= maxDelay
      modifies this, item`container
      ensures Valid() && ring == Splice(old(ring), k, item) && index == old(index)
      ensures at == if old(at) <= k then old(at) else old(at) + 1
    {
      SpliceDistinct(ring, k, item);
      item.container := this;
      count := count + 1;
      ring := Splice(ring, k, item);
      at := if at <= k then at else at + 1;
    }

    /** vListInsertEnd: insertion in front of the index, whatever the item values. */
    method InsertEnd(item: ListItem)
      requires Valid() && item !in ring && item.value <= maxDelay
      modifies this, ring, item
      ensures Valid() && AsRing() == old(AsRing()).InsertEnd(item)
      ensures item.value == old(item.value) && forall i :: 0 <= i < |old(ring)| ==>
                old(ring)[i].value == old(ring[i].value)
    {
      ghost var p := if at == 0 then |ring| - 1 else at - 1;
      assert Succ(ring, p) == at;
      SpliceIsInsertEnd(ring, at, item);
      InsertAfter(index.prev, item, p);
    }

    /** The search loop of vListInsert: the item to go behind. */
    method FindPlace(value: nat) returns (cursor: ListItem, ghost k: nat)
      requires Valid() && value <= maxDelay
      ensures k < |ring| && cursor == ring[k]
      ensures forall i :: 1 <= i <= k ==> ring[i].value <= value
      ensures k + 1 < |ring| ==> value < ring[k + 1].value
    {
      if value == maxDelay {
        k := count;
        assert Succ(ring, k) == 0;
        cursor := end.prev;
      } else {
        k := 0;
        cursor := end;
        assert Succ(ring, k) <= k + 1;
        while cursor.next.value <= value
          invariant k < |ring| && cursor == ring[k] && Succ(ring, k) <= k + 1
          invariant forall i :: 1 <= i <= k ==> ring[i].value <= value
          decreases |ring| - k
        {
          cursor := cursor.next;
          k := k + 1;
          assert Succ(ring, k) <= k + 1;
        }
      }
    }

    /** vListInsert: insertion in item value order, behind the equals. */
    method Insert(item: ListItem)
      requires Valid() && item !in ring && item.value <= maxDelay
      modifies this, ring, item
      ensures Valid() && Entries() == InsertSorted(old(Entries()), Entry(item.value, item))
      ensures index == old(index)
      ensures item.value == old(item.value) && forall i :: 0 <= i < |old(ring)| ==>
                old(ring)[i].value == old(ring[i].value)
    {
      ghost var s, before, e := ring, Entries(), Entry(item.value, item);
      var cursor, k := FindPlace(item.value);
      assert InsertedAt(before, e, before[..k] + [e] + before[k..], k);
      InsertSortedUnique(before, e, before[..k] + [e] + before[k..], k);
      InsertAfter(cursor, item, k);
      SpliceEntries(s, k, item);
      assert EntriesOf(s[1..]) == before;
    }

    /** uxListRemove, called on the list the item records as its container. */
    method Remove(item: ListItem, ghost k: nat) returns (left: nat)
      requires Valid() && 1 <= k < |ring| && ring[k] == item
      modifies this, ring
      ensures Valid() && ring == Unsplice(old(ring), k) && item.container == null && left == count
      ensures AsRing() == old(AsRing()).RemoveAt(k - 1)
      ensures forall i :: 0 <= i < |old(ring)| ==> old(ring)[i].value == old(ring[i].value)
    {
      assert Succ(ring, k - 1) == k && Succ(ring, k) <= k + 1;
      UnspliceIsRemoveAt(ring, at, k);
      ghost var s := ring;
      Unlink(s, k, item, item.prev, item.next);
      assert forall i :: 0 <= i < |s| ==> s[i].value == old(s[i].value);
      left := Forget(item, k);
    }

    /** The index and the count, once the ring is closed behind the item. */
    method Forget(item: ListItem, ghost k: nat) returns (left: nat)
      requires 1 <= k < |ring| && ring[k] == item && item.prev == ring[k - 1] && Linked(Unsplice(ring, k))
      requires |ring| == count + 1 && Distinct(ring) && ring[0] == end && end.value == maxDelay
      requires at < |ring| && index == ring[at]
      requires forall i :: 1 <= i < |ring| && i != k ==> ring[i].container == this && ring[i].value <= maxDelay
      modifies this
      ensures Valid() && ring == Unsplice(old(ring), k) && left == count
      ensures at == if k <= old(at) then old(at) - 1 else old(at)
    {
      UnspliceDistinct(ring, k);
      assert index == item <==> at == k;
      if index == item {
        index := item.prev;
      }
      count := count - 1;
      left := count;
      at := if k <= at then at - 1 else at;
      ring := Unsplice(ring, k);
    }

    /** listGET_OWNER_OF_NEXT_ENTRY: the index steps on, past the end marker. */
    method GetNextEntry() returns (item: ListItem)
      requires Valid() && count > 0
      modifies this
      ensures Valid() && ring == old(ring) && count == old(count)
      ensures AsRing() == old(AsRing()).Next() && item == old(AsRing()).VisitOrder()[0]
    {
      NextRotates(AsRing());
      assert Succ(ring, at) <= at + 1;
      index := index.next;
      at := Succ(ring, at);
      if index == end {
        assert Succ(ring, 0) == 1;
        index := index.next;
        at := 1;
      }
      item := index;
    }
  }
}

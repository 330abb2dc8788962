/** Singly linked lists with a sort key per element, and the sequences they stand for. */
module Lists {
  import opened Options

  datatype Keyed<T> = Keyed(item: T, key: int)

  // ---- sorted insertion, on sequences ----

  /** Where SortedInsert puts a key: before the first larger one, at the end when there is none. */
  function KeyPosition<T>(es: seq<Keyed<T>>, key: int, from: nat := 0): (i: nat)
    requires from <= |es|
    ensures from <= i <= |es| && (i < |es| ==> key < es[i].key)
    ensures forall j :: from <= j < i ==> es[j].key <= key
    decreases |es| - from
  {
    if from == |es| || key < es[from].key then from else KeyPosition(es, key, from + 1)
  }

  function Inserted<T>(es: seq<Keyed<T>>, e: Keyed<T>): (r: seq<Keyed<T>>)
    ensures |r| == |es| + 1
  {
    var i := KeyPosition(es, e.key);
    es[..i] + [e] + es[i..]
  }

  predicate SortedByKey<T>(es: seq<Keyed<T>>) {
    forall i, j :: 0 <= i < j < |es| ==> es[i].key <= es[j].key
  }

  lemma {:induction false} InsertedAt<T>(es: seq<Keyed<T>>, e: Keyed<T>)
    ensures var i, r := KeyPosition(es, e.key), Inserted(es, e);
            forall a :: 0 <= a < |r| ==> r[a] == if a < i then es[a] else if a == i then e else es[a - 1]
  {
  }

  /** Insertion keeps a list sorted and puts the element behind those with its key. */
  lemma {:induction false} InsertedIsSorted<T>(es: seq<Keyed<T>>, e: Keyed<T>)
    requires SortedByKey(es)
    ensures SortedByKey(Inserted(es, e))
    ensures forall j :: KeyPosition(es, e.key) <= j < |es| ==> e.key < es[j].key
  {
    var i, r := KeyPosition(es, e.key), Inserted(es, e);
    assert forall j :: i < j < |es| ==> es[i].key <= es[j].key;
    InsertedAt(es, e);
    forall a, b | 0 <= a < b < |r| ensures r[a].key <= r[b].key {
      assert a < b < i ==> es[a].key <= es[b].key;
      assert i <= a - 1 < b - 1 ==> es[a - 1].key <= es[b - 1].key;
    }
  }

  lemma {:induction false} InsertedFront<T>(es: seq<Keyed<T>>, e: Keyed<T>)
    requires es == [] || e.key < es[0].key
    ensures Inserted(es, e) == [e] + es
  {
  }

  /** Insertion adds exactly the element. */
  lemma {:induction false} InsertedAdds<T>(es: seq<Keyed<T>>, e: Keyed<T>)
    ensures multiset(Inserted(es, e)) == multiset(es) + multiset{e}
    ensures forall x :: x in Inserted(es, e) <==> x in es || x == e
  {
    var i := KeyPosition(es, e.key);
    assert es == es[..i] + es[i..];
  }

  /** Taking the first element of a sorted list takes a least key, and the rest is sorted. */
  lemma FirstIsLeast<T>(es: seq<Keyed<T>>)
    requires SortedByKey(es) && es != []
    ensures SortedByKey(es[1..]) && forall e :: e in es ==> es[0].key <= e.key
  {
  }

  lemma SpliceIs<T>(es: seq<Keyed<T>>, e: Keyed<T>, r: seq<Keyed<T>>, at: nat)
    requires at <= |es| && |r| == |es| + 1 && r[at] == e
    requires forall j :: 0 <= j < at ==> r[j] == es[j]
    requires forall j :: at < j < |r| ==> r[j] == es[j - 1]
    ensures r == es[..at] + [e] + es[at..]
  {
  }

  // ---- the linked list ----

  ghost predicate Distinct<T>(nodes: seq<ListElement<T>>) {
    forall i, j :: 0 <= i < j < |nodes| ==> nodes[i] != nodes[j]
  }

  /** The nodes with one more at a position; no node is there twice. */
  ghost function Spliced<T>(nodes: seq<ListElement<T>>, element: ListElement<T>, at: nat): (r: seq<ListElement<T>>)
    requires at <= |nodes| && element !in nodes && Distinct(nodes)
    ensures |r| == |nodes| + 1
    ensures forall j :: 0 <= j < |r| ==> r[j] == if j < at then nodes[j] else if j == at then element else nodes[j - 1]
    ensures Distinct(r)
  {
    seq(|nodes| + 1, j requires 0 <= j <= |nodes| => if j < at then nodes[j] else if j == at then element else nodes[j - 1])
  }

  class ListElement<T> {
    var item: T
    var key: int
    var next: ListElement?<T>

    constructor (item: T, sortKey: int)
      ensures this.item == item && key == sortKey && next == null
    {
      this.item, key, next := item, sortKey, null;
    }
  }

  class List<T> {
    var first: ListElement?<T>
    var last: ListElement?<T>
    /** The elements, in order. */
    ghost var nodes: seq<ListElement<T>>

    ghost predicate Valid()
      reads this, nodes
    {
      && (nodes == [] ==> first == null && last == null)
      && (nodes != [] ==> first == nodes[0] && last == nodes[|nodes| - 1])
      && Distinct(nodes)
      && (forall i :: 0 <= i < |nodes| ==> Linked(i))
    }

    /** Element `i` points to the one after it. */
    ghost predicate Linked(i: nat)
      requires i < |nodes|
      reads this, nodes
    {
      nodes[i].next == if i + 1 < |nodes| then nodes[i + 1] else null
    }

    ghost function Contents(): (es: seq<Keyed<T>>)
      reads this, nodes
      ensures |es| == |nodes| && forall i :: 0 <= i < |es| ==> es[i] == Keyed(nodes[i].item, nodes[i].key)
    {
      seq(|nodes|, i requires 0 <= i < |nodes| reads this, nodes => Keyed(nodes[i].item, nodes[i].key))
    }

    constructor ()
      ensures Valid() && Contents() == [] && nodes == []
    {
      first, last, nodes := null, null, [];
    }

    predicate IsEmpty()
      requires Valid()
      reads this, nodes
      ensures IsEmpty() <==> Contents() == []
    {
      first == null
    }

    method Append(item: T)
      requires Valid()
      modifies this, nodes
      ensures Valid() && Contents() == old(Contents()) + [Keyed(item, 0)]
    {
      var element := new ListElement(item, 0);
      PutLast(element);
    }

    method Prepend(item: T)
      requires Valid()
      modifies this, nodes
      ensures Valid() && Contents() == [Keyed(item, 0)] + old(Contents())
    {
      var element := new ListElement(item, 0);
      PutFirst(element);
    }

    /** The element becomes the first. */
    method PutFirst(element: ListElement<T>)
      requires Valid() && element !in nodes && element.next == null
      modifies this, element`next
      ensures Valid() && nodes == [element] + old(nodes)
      ensures Contents() == [Keyed(element.item, element.key)] + old(Contents())
    {
      if IsEmpty() {
        first := element;
        last := element;
      } else {
        element.next := first;
        first := element;
      }
      nodes := [element] + nodes;
      forall i | 0 <= i < |nodes| ensures Linked(i) {
        assert i > 0 ==> old(Linked(i - 1));
      }
    }

    /** The element becomes the last. */
    method PutLast(element: ListElement<T>)
      requires Valid() && element !in nodes && element.next == null
      modifies this, nodes
      ensures Valid() && nodes == old(nodes) + [element]
      ensures Contents() == old(Contents()) + [Keyed(element.item, element.key)]
    {
      if IsEmpty() {
        first := element;
        last := element;
      } else {
        last.next := element;
        last := element;
      }
      nodes := nodes + [element];
      forall i | 0 <= i < |nodes| ensures Linked(i) {
        assert i + 1 < |nodes| ==> old(Linked(i));
      }
    }

    /** The element comes right after element `i`, which is not the last. */
    method PutAfter(ptr: ListElement<T>, element: ListElement<T>, ghost i: nat)
      requires Valid() && element !in nodes && i + 1 < |nodes| && ptr == nodes[i]
      modifies this, ptr`next, element`next
      ensures Valid() && nodes == Spliced(old(nodes), element, i + 1)
    {
      assert Linked(i);
      element.next := ptr.next;
      ptr.next := element;
      nodes := Spliced(nodes, element, i + 1);
      forall j | 0 <= j < |nodes| ensures Linked(j) {
        assert j > i + 1 ==> old(Linked(j - 1));
        assert j < i ==> old(Linked(j));
      }
    }

    method SpliceAfter(ptr: ListElement<T>, element: ListElement<T>, ghost i: nat)
      requires Valid() && element !in nodes && i + 1 < |nodes| && ptr == nodes[i]
      modifies this, ptr`next, element`next
      ensures Valid()
      ensures Contents() == old(Contents())[..i + 1] + [Keyed(element.item, element.key)] + old(Contents())[i + 1..]
    {
      ghost var es := Contents();
      PutAfter(ptr, element, i);
      SpliceIs(es, Keyed(element.item, element.key), Contents(), i + 1);
    }

    method SortedInsert(item: T, sortKey: int)
      requires Valid()
      modifies this, nodes
      ensures Valid() && Contents() == Inserted(old(Contents()), Keyed(item, sortKey))
    {
      var element := new ListElement(item, sortKey);
      if IsEmpty() || sortKey < first.key {
        InsertedFront(Contents(), Keyed(item, sortKey));
        PutFirst(element);
      } else {
        InsertBehindFirst(element);
      }
    }

    /** The walk of SortedInsert along a list whose first key is not larger. */
    method InsertBehindFirst(element: ListElement<T>)
      requires Valid() && element !in nodes && element.next == null && nodes != [] && nodes[0].key <= element.key
      modifies this, nodes, element`next
      ensures Valid() && Contents() == Inserted(old(Contents()), Keyed(element.item, element.key))
    {
      ghost var es, i := Contents(), 0;
      var ptr := first;
      while ptr.next != null
        invariant 0 <= i < |nodes| && ptr == nodes[i]
        invariant KeyPosition(es, element.key) == KeyPosition(es, element.key, i + 1)
        decreases |nodes| - i
      {
        assert Linked(i);
        if element.key < ptr.next.key {
          assert KeyPosition(es, element.key) == i + 1;
          SpliceAfter(ptr, element, i);
          return;
        }
        ptr := ptr.next;
        i := i + 1;
      }
      assert Linked(i);
      assert KeyPosition(es, element.key) == |es|;
      PutLast(element);
    }

    /** Takes the first element with its key; None when the list is empty. */
    method SortedRemove() returns (r: Option<Keyed<T>>)
      requires Valid()
      modifies this
      ensures Valid()
      ensures r == if old(Contents()) == [] then None else Some(old(Contents())[0])
      ensures Contents() == if old(Contents()) == [] then [] else old(Contents())[1..]
    {
      if IsEmpty() {
        return None;
      }
      var element := first;
      assert Linked(0);
      if first == last {
        first := null;
        last := null;
      } else {
        first := element.next;
      }
      nodes := nodes[1..];
      forall i | 0 <= i < |nodes| ensures Linked(i) {
        assert old(Linked(i + 1));
      }
      return Some(Keyed(element.item, element.key));
    }

    method Remove() returns (r: Option<T>)
      requires Valid()
      modifies this
      ensures Valid()
      ensures r == if old(Contents()) == [] then None else Some(old(Contents())[0].item)
      ensures Contents() == if old(Contents()) == [] then [] else old(Contents())[1..]
    {
      var taken := SortedRemove();
      r := if taken.Some? then Some(taken.value.item) else None;
    }
  }
}

/**
 Intrusive circular doubly linked lists. A list head is a node without an item, linked to itself
 when the list is empty.
 */
module QList {
  import opened Prelude

  class QNode<T> {
    var next: QNode<T>
    var prev: QNode<T>
    const item: Option<T>

    /** A node starts out linked to itself. */
    constructor (item: Option<T>)
      ensures next == this && prev == this && this.item == item
    {
      this.item := item;
      next, prev := this, this;
    }
  }

  class List<T> {
    const head: QNode<T>
    ghost var nodes: seq<QNode<T>>
    ghost var Repr: set<object>

    /** The node at position `i`; one before the first and one after the last is the head. */
    ghost function At(i: int): (n: QNode<T>)
      reads this
    {
      if 0 <= i < |nodes| then nodes[i] else head
    }

    /** Position `i` and the one before it point at each other. */
    ghost predicate LinkedAt(i: int)
      requires At(i - 1) in Repr && At(i) in Repr
      reads this, Repr
    {
      At(i - 1).next == At(i) && At(i).prev == At(i - 1)
    }

    ghost predicate Valid()
      reads this, Repr
    {
      && this in Repr && head in Repr && head.item.None?
      && (forall i :: 0 <= i < |nodes| ==> nodes[i] in Repr && nodes[i].item.Some?)
      && Distinct(nodes)
      && (forall i :: 0 <= i <= |nodes| ==> LinkedAt(i))
    }

    static ghost predicate Distinct(nodes: seq<QNode<T>>) {
      forall i, j :: 0 <= i < j < |nodes| ==> nodes[i] != nodes[j]
    }

    static ghost function Without(nodes: seq<QNode<T>>, k: nat): (r: seq<QNode<T>>)
      requires k < |nodes|
      ensures |r| == |nodes| - 1
      ensures forall i :: 0 <= i < |r| ==> r[i] == nodes[if i < k then i else i + 1]
    {
      nodes[..k] + nodes[k+1..]
    }

    static lemma WithoutFacts(nodes: seq<QNode<T>>, k: nat)
      requires k < |nodes| && Distinct(nodes)
      requires forall i :: 0 <= i < |nodes| ==> nodes[i].item.Some?
      ensures Distinct(Without(nodes, k))
      ensures forall i :: 0 <= i < |nodes| - 1 ==> Without(nodes, k)[i] != nodes[k]
      ensures forall i :: 0 <= i < |nodes| - 1 ==> Without(nodes, k)[i].item.Some?
      ensures ItemsOf(Without(nodes, k)) == ItemsOf(nodes)[..k] + ItemsOf(nodes)[k+1..]
    {
    }

    /** The items of the nodes, in list order. */
    ghost function Items(): (items: seq<T>)
      requires Valid()
      reads this, Repr
    {
      ItemsOf(nodes)
    }

    static ghost function ItemsOf(nodes: seq<QNode<T>>): (items: seq<T>)
      requires forall i :: 0 <= i < |nodes| ==> nodes[i].item.Some?
    {
      seq(|nodes|, i requires 0 <= i < |nodes| => nodes[i].item.value)
    }

    constructor ()
      ensures Valid() && nodes == [] && fresh(Repr)
    {
      head := new QNode<T>(None);
      nodes := [];
      Repr := {this, head};
    }

    method AddTail(item: QNode<T>)
      requires Valid() && item !in Repr && item.item.Some?
      modifies Repr, item
      ensures Valid() && Repr == old(Repr) + {item}
      ensures nodes == old(nodes) + [item]
      ensures Items() == old(Items()) + [item.item.value]
    {
      ghost var n := |nodes|;
      assert LinkedAt(n);
      item.next := head;
      item.prev := head.prev;
      head.prev.next := item;
      head.prev := item;
      nodes := nodes + [item];
      Repr := Repr + {item};
      forall i | 0 <= i <= |nodes| ensures LinkedAt(i) {
        assert i <= n ==> old(LinkedAt(i));
      }
    }

    method Remove(item: QNode<T>, ghost k: nat)
      requires Valid() && k < |nodes| && nodes[k] == item
      modifies Repr
      ensures Valid() && Repr == old(Repr) - {item}
      ensures nodes == Without(old(nodes), k)
      ensures Items() == old(Items())[..k] + old(Items())[k+1..]
    {
      WithoutFacts(nodes, k);
      assert LinkedAt(k) && LinkedAt(k + 1);
      item.next.prev := item.prev;
      item.prev.next := item.next;
      nodes := Without(nodes, k);
      Repr := Repr - {item};
      forall i | 0 <= i <= |nodes| ensures LinkedAt(i) {
        if i < k {
          assert old(LinkedAt(i));
        } else if i > k {
          assert old(LinkedAt(i + 1));
        }
      }
    }
  }
}

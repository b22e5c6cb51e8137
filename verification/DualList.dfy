/** The doubly linked list with dummy ends (include/util/dual_list.h), with its nodes in the heap. */
module DualList {

  class Node<T(0)> {
    var data: T
    var prev: Node?<T>
    var next: Node?<T>

    constructor (t: T)
      ensures data == t && prev == null && next == null
    {
      data, prev, next := t, null, null;
    }

    constructor Dummy()
      ensures prev == null && next == null
    {
      prev, next := null, null;
    }
  }

  // Neighbours in `all` point to each other.
  ghost predicate Linked<T(0)>(all: seq<Node<T>>)
    reads all
  {
    forall i :: 0 <= i < |all| - 1 ==> all[i].next == all[i + 1] && all[i + 1].prev == all[i]
  }

  ghost predicate Distinct<T(0)>(all: seq<Node<T>>) {
    forall i, j :: 0 <= i < j < |all| ==> all[i] != all[j]
  }

  // The nodes between the dummies hold these data.
  ghost predicate Carries<T(0)>(all: seq<Node<T>>, contents: seq<T>)
    reads all
  {
    |all| == |contents| + 2 && forall i :: 0 <= i < |contents| ==> all[i + 1].data == contents[i]
  }

  // Node i of the list, behind the dummy head.
  function NodeAt<A>(all: seq<A>, i: nat): A
    requires i + 1 < |all|
  {
    all[i + 1]
  }

  // Node k of the list moves to the front.
  function Moved<A>(all: seq<A>, k: nat): seq<A>
    requires k + 1 < |all|
  {
    [all[0], all[k + 1]] + all[1..k + 1] + all[k + 2..]
  }

  // A node is put behind the dummy head.
  function Pushed<A>(all: seq<A>, node: A): seq<A>
    requires all != []
  {
    [all[0], node] + all[1..]
  }

  // The node before the dummy tail is cut off.
  function Popped<A>(all: seq<A>): seq<A>
    requires |all| > 2
  {
    all[..|all| - 2] + all[|all| - 1..]
  }

  function Fronted<T>(contents: seq<T>, k: nat): seq<T>
    requires k < |contents|
  {
    [contents[k]] + contents[..k] + contents[k + 1..]
  }

  lemma RemoveKeepsDistinct<T(0)>(all: seq<Node<T>>, k: nat)
    requires Distinct(all) && k < |all|
    ensures Distinct(all[..k] + all[k + 1..]) && all[k] !in all[..k] + all[k + 1..]
  {
  }

  lemma MovedAgain<A>(all: seq<A>, k: nat)
    requires k + 1 < |all|
    ensures [all[0], all[k + 1]] + (all[..k + 1] + all[k + 2..])[1..] == Moved(all, k)
  {
  }

  lemma MovedMembers<A>(all: seq<A>, k: nat)
    requires k + 1 < |all|
    ensures forall n <- Moved(all, k) :: n in all
  {
  }

  lemma PushKeepsDistinct<T(0)>(all: seq<Node<T>>, node: Node<T>)
    requires Distinct(all) && all != [] && node !in all
    ensures Distinct([all[0], node] + all[1..])
  {
  }

  lemma CarriesMoved<T(0)>(all: seq<Node<T>>, contents: seq<T>, k: nat)
    requires Carries(all, contents) && k < |contents|
    ensures Carries(Moved(all, k), Fronted(contents, k))
  {
  }

  lemma CarriesPushed<T(0)>(all: seq<Node<T>>, node: Node<T>, contents: seq<T>)
    requires Carries(all, contents)
    ensures Carries(Pushed(all, node), [node.data] + contents)
  {
    var more := Pushed(all, node);
    assert forall i :: 0 < i <= |contents| ==> more[i + 1] == all[i];
  }

  lemma CarriesPopped<T(0)>(all: seq<Node<T>>, contents: seq<T>)
    requires Carries(all, contents) && contents != []
    ensures Carries(Popped(all), contents[..|contents| - 1])
  {
  }

  // `node->prev->next = node->next; node->next->prev = node->prev`
  method Cut<T(0)>(node: Node<T>, ghost all: seq<Node<T>>, ghost k: nat)
    requires Linked(all) && Distinct(all) && 0 < k < |all| - 1 && node == all[k]
    modifies all
    ensures Linked(all[..k] + all[k + 1..])
    ensures forall n <- all :: n.data == old(n.data)
  {
    assert all[k - 1].next == node && node.next == all[k + 1];
    node.prev.next := node.next;
    node.next.prev := node.prev;
    ghost var rest := all[..k] + all[k + 1..];
    assert forall i :: 0 <= i < |rest| ==> rest[i] == if i < k then all[i] else all[i + 1];
  }

  // The four assignments that put node behind the dummy head.
  method LinkFirst<T(0)>(head: Node<T>, node: Node<T>, ghost all: seq<Node<T>>)
    requires Linked(all) && Distinct(all) && |all| >= 2 && head == all[0] && node !in all
    modifies all, node
    ensures Linked([head, node] + all[1..])
    ensures forall n <- all :: n.data == old(n.data)
    ensures node.data == old(node.data)
  {
    assert head.next == all[1];
    node.next := head.next;
    node.prev := head;
    node.next.prev := node;
    head.next := node;
    ghost var more := [head, node] + all[1..];
    assert forall i :: 2 <= i < |more| ==> more[i] == all[i - 1];
  }

  // MoveFront on the nodes.
  method Relink<T(0)>(head: Node<T>, node: Node<T>, ghost all: seq<Node<T>>, ghost k: nat)
    requires Linked(all) && Distinct(all) && k + 2 < |all| && head == all[0] && node == all[k + 1]
    modifies all
    ensures Linked(Moved(all, k)) && Distinct(Moved(all, k))
    ensures forall n <- all :: n.data == old(n.data)
  {
    ghost var rest := all[..k + 1] + all[k + 2..];
    RemoveKeepsDistinct(all, k + 1);
    MovedAgain(all, k);
    PushKeepsDistinct(rest, node);
    Cut(node, all, k + 1);
    LinkFirst(head, node, rest);
  }

  class DualList<T(0)> {
    var head: Node?<T>
    var tail: Node?<T>
    var size: nat
    ghost var all: seq<Node<T>>  // from dummy head to dummy tail; empty before the first insertion
    ghost var contents: seq<T>   // the data in list order

    /** Well linked in both directions, from dummy head to dummy tail, through distinct nodes that hold
        the contents. */
    ghost predicate Valid()
      reads this, all
    {
      && size == |contents| && Distinct(all) && Linked(all)
      && if all == [] then head == null && tail == null && contents == []
         else Carries(all, contents) && head == all[0] && tail == all[|all| - 1]
    }

    ghost function Nodes(): set<Node<T>>
      reads this
    {
      set n <- all
    }

    constructor ()
      ensures Valid() && contents == [] && all == []
    {
      head, tail, size, all, contents := null, null, 0, [], [];
    }

    // `node->data = t`
    method SetData(node: Node<T>, t: T, ghost k: nat)
      requires Valid() && k < |contents| && node == all[k + 1]
      modifies this`contents, node`data
      ensures Valid() && contents == old(contents)[k := t]
    {
      node.data := t;
      contents := contents[k := t];
    }

    /** Puts a node of the list first; nothing else changes. */
    method MoveFront(node: Node<T>, ghost k: nat)
      requires Valid() && k < |contents| && node == all[k + 1]
      modifies this`all, this`contents, all
      ensures Valid() && contents == Fronted(old(contents), k) && all == Moved(old(all), k)
      ensures forall n <- all :: n in old(all)
    {
      MovedMembers(all, k);
      Relink(head, node, all, k);
      CarriesMoved(all, contents, k);
      all, contents := Moved(all, k), Fronted(contents, k);
    }

    // The dummy ends of an empty list.
    method MakeDummies()
      requires Valid() && size == 0
      modifies this
      ensures Valid() && |all| == 2 && fresh(all[0]) && fresh(all[1]) && contents == []
    {
      head := new Node.Dummy();
      tail := new Node.Dummy();
      head.next := tail;
      tail.prev := head;
      all := [head, tail];
    }

    // A new node behind the dummy head.
    method PushNode(t: T) returns (node: Node<T>)
      requires Valid() && all != []
      modifies this, all
      ensures Valid() && fresh(node) && all == Pushed(old(all), node)
      ensures contents == [t] + old(contents)
    {
      node := new Node(t);
      PushKeepsDistinct(all, node);
      LinkFirst(head, node, all);
      CarriesPushed(all, node, contents);
      size := size + 1;
      all, contents := Pushed(all, node), [t] + contents;
    }

    method PushFront(t: T) returns (node: Node<T>)
      requires Valid()
      modifies this, all
      ensures Valid() && fresh(node) && contents == [t] + old(contents)
      ensures if |old(contents)| == 0 then |all| == 3 && NodeAt(all, 0) == node
              else all == Pushed(old(all), node)
      ensures fresh(Nodes() - old(Nodes()))
    {
      if size == 0 {
        MakeDummies();
      }
      node := PushNode(t);
    }

    method Back() returns (t: T)
      requires Valid() && contents != []
      ensures t == contents[|contents| - 1]
    {
      assert all[|contents| + 1] == tail && tail.prev == all[|contents|];
      t := tail.prev.data;
    }

    method PopBack()
      requires Valid() && contents != []
      modifies this, all
      ensures Valid() && contents == old(contents)[..|old(contents)| - 1]
      ensures |old(all)| == |contents| + 3 && all == Popped(old(all))
    {
      ghost var k := |contents| - 1;
      assert all[k + 2] == tail && tail.prev == all[k + 1];
      RemoveKeepsDistinct(all, k + 1);
      Cut(tail.prev, all, k + 1);  // the node it cuts off is deleted
      CarriesPopped(all, contents);
      size := size - 1;
      all, contents := Popped(all), contents[..k];
    }
  }
}

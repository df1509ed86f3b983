/** The singly linked list of list.c: nodes with a head, a tail and a length. list_remove never repairs the
    tail, so a list is well formed without its tail being its last node; only list_add needs that. */
module LinkedList {

  class ListNode<T> {
    var data: T
    var next: ListNode?<T>

    constructor (data: T)
      ensures this.data == data && next == null
    {
      this.data := data;
      next := null;
    }
  }

  /** The pointer handed to list_remove: the data of one node, compared by identity, or a value, compared
      by equality. The list's equality function decides which; here the argument does. */
  datatype Element<T> = DataOf(node: ListNode<T>) | Value(value: T)

  function RemoveFirst<T(==)>(s: seq<T>, x: T): (r: seq<T>)
    ensures x !in s ==> r == s
    ensures x in s ==> |r| == |s| - 1
  {
    if s == [] then []
    else if s[0] == x then s[1..]
    else [s[0]] + RemoveFirst(s[1..], x)
  }

  /** All but element k, if there is one. */
  function Without<T>(s: seq<T>, k: nat): (r: seq<T>)
    ensures k < |s| ==> |r| == |s| - 1 && forall j :: 0 <= j < |r| ==> r[j] == s[if j < k then j else j + 1]
  {
    if k < |s| then s[..k] + s[k + 1..] else s
  }

  lemma WithoutFirst<T>(s: seq<T>)
    requires s != []
    ensures Without(s, 0) == s[1..]
  {
  }

  lemma WithoutShifts<T>(s: seq<T>, k: nat)
    requires 0 < k < |s|
    ensures [s[0]] + Without(s[1..], k - 1) == Without(s, k)
  {
  }

  /** The first k elements are not x. */
  predicate NotBefore<T(==)>(s: seq<T>, x: T, k: nat)
    requires k <= |s|
  {
    k == 0 || (s[0] != x && NotBefore(s[1..], x, k - 1))
  }

  lemma {:induction false} NotBeforeIs<T>(s: seq<T>, x: T, k: nat)
    requires k <= |s| && forall j :: 0 <= j < k ==> s[j] != x
    ensures NotBefore(s, x, k)
  {
    if k > 0 {
      var rest := s[1..];
      assert forall j :: 0 <= j < k - 1 ==> rest[j] == s[j + 1];
      NotBeforeIs(rest, x, k - 1);
    }
  }

  /** Skipping the elements before the first occurrence. */
  lemma {:induction false} RemoveFirstAt<T>(s: seq<T>, x: T, k: nat)
    requires k < |s| && s[k] == x && NotBefore(s, x, k)
    ensures RemoveFirst(s, x) == Without(s, k)
  {
    if k > 0 {
      RemoveFirstAt(s[1..], x, k - 1);
      WithoutShifts(s, k);
    }
  }

  /** x is the last of several elements, and nowhere before: to remove it leaves the tail of a list behind. */
  predicate OnlyAtEnd<T(==)>(s: seq<T>, x: T) {
    |s| > 1 && s[|s| - 1] == x && forall j :: 0 <= j < |s| - 1 ==> s[j] != x
  }

  lemma FirstValue<T>(s: seq<T>, k: nat, x: T)
    requires k <= |s| && (forall j :: 0 <= j < k ==> s[j] != x) && (k < |s| ==> s[k] == x)
    ensures RemoveFirst(s, x) == Without(s, k)
    ensures OnlyAtEnd(s, x) <==> k != 0 && k + 1 == |s|
  {
    if k < |s| {
      NotBeforeIs(s, x, k);
      RemoveFirstAt(s, x, k);
    } else {
      assert x !in s;
    }
  }

  class List<T(==)> {
    var length: int
    var head: ListNode?<T>
    var tail: ListNode?<T>
    ghost var nodes: seq<ListNode<T>>       // the chain from head
    ghost var repr: set<object>        // every node the list has ever had

    /** head leads through the nodes, each once. */
    ghost predicate Chain()
      reads this, nodes
    {
      && (forall j, k :: 0 <= j < k < |nodes| ==> nodes[j] != nodes[k])
      && head == (if nodes == [] then null else nodes[0])
      && (forall k {:trigger nodes[k].next} :: 0 <= k < |nodes| ==> nodes[k].next == if k + 1 < |nodes| then nodes[k + 1] else null)
    }

    /** Well formed, whatever the tail: it may be left on a removed node. */
    ghost predicate Valid()
      reads this, repr
    {
      && (forall k :: 0 <= k < |nodes| ==> nodes[k] in repr)
      && Chain()
      && length == |nodes|
      && (length > 0 ==> tail != null)
      && (tail != null ==> tail in repr)
      && (tail != null && tail in nodes ==> tail == nodes[|nodes| - 1])
    }

    /** What list_add relies on. */
    ghost predicate TailInPlace()
      reads this
    {
      length == 0 || (|nodes| > 0 && tail == nodes[|nodes| - 1])
    }

    ghost function Contents(): (s: seq<T>)
      reads this, nodes
      ensures |s| == |nodes|
      ensures forall k :: 0 <= k < |s| ==> s[k] == nodes[k].data
    {
      seq(|nodes|, k requires 0 <= k < |nodes| reads this, nodes => nodes[k].data)
    }

    constructor ()
      ensures Valid() && TailInPlace() && Contents() == [] && repr == {}
    {
      length := 0;
      head := null;
      tail := null;
      nodes := [];
      repr := {};
    }

    /** With the tail in place the element is appended. With a stale tail the new node hangs off a removed
        one: head still leads through the old nodes and no others, so the element is lost to every walk from
        it, yet counted. */
    method Add(element: T)
      requires Valid()
      modifies this, repr
      ensures fresh(repr - old(repr)) && old(repr) <= repr
      ensures length == old(length) + 1
      ensures old(TailInPlace()) ==> Valid() && TailInPlace() && Contents() == old(Contents()) + [element]
      ensures !old(TailInPlace()) ==> Chain() && nodes == old(nodes) && Contents() == old(Contents()) && length == |nodes| + 1
      ensures forall n: ListNode<T> :: n in old(repr) ==> n.data == old(n.data)
    {
      var node := new ListNode(element);
      if length == 0 {
        head, tail := node, node;
        nodes := [node];
      } else {
        if TailInPlace() { nodes := nodes + [node]; }
        tail.next := node;
        tail := node;
      }
      repr := repr + {node};
      length := length + 1;
    }

    predicate Matches(node: ListNode<T>, element: Element<T>)
      reads node
    {
      match element
      case DataOf(n) => node == n
      case Value(v) => node.data == v
    }

    /** The first node leaves the chain; the tail stays where it was. */
    method UnlinkFirst(nextNode: ListNode?<T>)
      requires Valid() && |nodes| > 0 && nextNode == nodes[0].next
      modifies this
      ensures Valid() && repr == old(repr) && tail == old(tail) && head == nextNode
      ensures nodes == Without(old(nodes), 0)
      ensures old(TailInPlace()) ==> TailInPlace()
    {
      head := nextNode;
      nodes := Without(nodes, 0);
      length := length - 1;
    }

    /** So does a later node k, behind prevNode. */
    method UnlinkLater(ghost k: nat, prevNode: ListNode<T>, nextNode: ListNode?<T>)
      requires Valid() && 0 < k < |nodes| && nextNode == nodes[k].next && prevNode == nodes[k - 1]
      modifies this, prevNode
      ensures Valid() && repr == old(repr) && tail == old(tail)
      ensures nodes == Without(old(nodes), k)
      ensures old(TailInPlace()) ==> (TailInPlace() <==> k + 1 < |old(nodes)|)
      ensures prevNode.data == old(prevNode.data) && old(nodes)[k].next == nextNode
    {
      prevNode.next := nextNode;
      nodes := Without(nodes, k);
      length := length - 1;
    }

    /** Node k leaves the chain. */
    method Unlink(ghost k: nat, prevNode: ListNode?<T>, nextNode: ListNode?<T>)
      requires Valid() && k < |nodes| && nextNode == nodes[k].next
      requires prevNode == if k == 0 then null else nodes[k - 1]
      modifies this, if prevNode == null then {} else {prevNode}
      ensures Valid() && repr == old(repr) && tail == old(tail)
      ensures nodes == Without(old(nodes), k)
      ensures old(TailInPlace()) ==> (TailInPlace() <==> k == 0 || k + 1 < |old(nodes)|)
      ensures forall n: ListNode<T> :: n in repr ==> n.data == old(n.data)
      ensures old(nodes)[k].next == old(nodes[k].next) && (k == 0 ==> head == nextNode)
    {
      if prevNode != null {
        UnlinkLater(k, prevNode, nextNode);
      } else {
        UnlinkFirst(nextNode);
      }
    }

    /** The search of list_remove: the first matching node, if any, and the one before it. */
    method Search(element: Element<T>) returns (prevNode: ListNode?<T>, currNode: ListNode?<T>, ghost k: nat)
      requires Valid()
      ensures k <= |nodes| && currNode == (if k < |nodes| then nodes[k] else null)
      ensures prevNode == if k == 0 then null else nodes[k - 1]
      ensures forall j :: 0 <= j < k ==> !Matches(nodes[j], element)
      ensures k < |nodes| ==> Matches(nodes[k], element)
    {
      prevNode, currNode, k := null, head, 0;
      while currNode != null
        invariant 0 <= k <= |nodes|
        invariant currNode == if k < |nodes| then nodes[k] else null
        invariant prevNode == if k == 0 then null else nodes[k - 1]
        invariant forall j :: 0 <= j < k ==> !Matches(nodes[j], element)
        decreases |nodes| - k
      {
        assert currNode == nodes[k];
        if Matches(currNode, element) { return; }
        prevNode := currNode;
        currNode := currNode.next;
        k := k + 1;
      }
    }

    /** The first matching node, at k, leaves the chain, if there is one. The tail stays where it was, so
        it is stale exactly when the last node left and another is now the last. */
    method Remove(element: Element<T>) returns (ghost k: nat)
      requires Valid()
      modifies this, repr
      ensures Valid() && repr == old(repr) && tail == old(tail)
      ensures k <= |old(nodes)| && forall j :: 0 <= j < k ==> !old(Matches(nodes[j], element))
      ensures k < |old(nodes)| ==> old(Matches(nodes[k], element))
      ensures nodes == Without(old(nodes), k) && Contents() == Without(old(Contents()), k)
      ensures old(TailInPlace()) ==> (TailInPlace() <==> k == 0 || k + 1 != |old(nodes)|)
      ensures forall n: ListNode<T> :: n in repr ==> n.data == old(n.data)
      ensures k < |old(nodes)| ==> old(nodes)[k].next == old(nodes[k].next) && (k == 0 ==> head == old(nodes[k].next))
    {
      var prevNode, currNode;
      prevNode, currNode, k := Search(element);
      if currNode != null {
        Unlink(k, prevNode, currNode.next);
      }
    }

    /** list_remove where the list compares by value. */
    method RemoveValue(value: T)
      requires Valid()
      modifies this, repr
      ensures Valid() && repr == old(repr)
      ensures Contents() == RemoveFirst(old(Contents()), value)
      ensures old(TailInPlace()) ==> (TailInPlace() <==> !OnlyAtEnd(old(Contents()), value))
    {
      ghost var was := Contents();
      var k := Remove(Value(value));
      assert forall j :: 0 <= j < k ==> was[j] != value by {
        forall j | 0 <= j < k
          ensures was[j] != value
        {
          assert !old(Matches(nodes[j], Value(value)));
        }
      }
      assert k < |was| ==> was[k] == value;
      FirstValue(was, k, value);
    }

    /** All nodes are dropped and the tail forgotten. */
    method Destroy()
      requires Valid()
      modifies this
      ensures Valid() && TailInPlace() && Contents() == [] && repr == old(repr)
    {
      while head != null
        invariant Valid()
        invariant repr == old(repr)
        decreases |nodes|
      {
        var current := head;
        assert current == nodes[0];
        head := current.next;
        nodes := nodes[1..];
        length := length - 1;
      }
      tail := null;
    }

    method ListContains(element: Element<T>) returns (found: bool)
      requires Valid()
      ensures found <==> exists k :: 0 <= k < |nodes| && Matches(nodes[k], element)
    {
      var currNode := head;
      ghost var k := 0;
      while currNode != null
        invariant 0 <= k <= |nodes|
        invariant currNode == if k < |nodes| then nodes[k] else null
        invariant forall j :: 0 <= j < k ==> !Matches(nodes[j], element)
        decreases |nodes| - k
      {
        if Matches(currNode, element) { return true; }
        currNode := currNode.next;
        k := k + 1;
      }
      return false;
    }
  }

  /** A list whose last node was removed loses the next element it is given. */
  method StaleTailLoses() returns (list: List<int>)
    ensures list.Chain() && list.Contents() == [1] && list.length == 2
  {
    list := new List();
    list.Add(1);
    list.Add(2);
    var _ := list.Remove(Value(2));
    list.Add(3);
  }
}

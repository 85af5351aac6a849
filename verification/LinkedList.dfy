/** packages/core/lib/LinkedList.ts: a doubly linked list with head and tail. */
module LinkedList {
  import opened Wrappers
  import opened Sequences

  datatype Error = RangeError | TypeError

  class Node<T> {
    var value: T
    var prev: Node?<T>
    var next: Node?<T>

    constructor (value: T)
      ensures this.value == value && prev == null && next == null
    {
      this.value, prev, next := value, null, null;
    }
  }

  class LinkedList<T> {
    var length: nat
    var head: Node?<T>
    var tail: Node?<T>
    /** The nodes in order. */
    ghost var spine: seq<Node<T>>
    /** Their values. */
    ghost var contents: seq<T>

    ghost predicate Valid()
      reads this, spine
    {
      |spine| == length && Ends() && Distinct(spine) && Linked(spine) && Holds(spine, contents)
    }

    ghost predicate Ends()
      reads this
    {
      head == NodeOrNull(spine, 0) && tail == NodeOrNull(spine, |spine| - 1)
    }

    constructor ()
      ensures Valid() && spine == [] && contents == []
    {
      length, head, tail, spine, contents := 0, null, null, [], [];
    }

    method Add(value: T) returns (node: Node<T>)
      requires Valid()
      modifies this, spine
      ensures Valid() && fresh(node) && spine == old(spine) + [node]
      ensures contents == old(contents) + [value]
    {
      node := new Node(value);
      ghost var was := spine;
      spine := spine + [node];
      contents := contents + [value];
      if head == null {
        head := node;
        tail := node;
        length := length + 1;
        return;
      }
      node.prev := tail;
      tail.next := node;
      tail := node;
      length := length + 1;
      AddLinks(was, node);
    }

    /** Throws outside 0..length; the end itself has no node. */
    method NodeAt(index: int) returns (r: Result<Node?<T>, Error>)
      requires Valid()
      ensures r == if index < 0 || index > length then Err(RangeError) else Ok(NodeOrNull(spine, index))
    {
      if index < 0 || index > length { return Err(RangeError); }
      var currentNode := Seek(index);
      return Ok(currentNode);
    }

    method Seek(index: nat) returns (currentNode: Node?<T>)
      requires |spine| == length && index <= length && head == NodeOrNull(spine, 0) && Linked(spine)
      ensures currentNode == NodeOrNull(spine, index)
    {
      currentNode := head;
      for count := 0 to index
        invariant currentNode == NodeOrNull(spine, count)
      {
        currentNode := currentNode.next;
      }
    }

    method ValueAt(index: int) returns (r: Result<Option<T>, Error>)
      requires Valid()
      ensures r == if index < 0 || index > length then Err(RangeError)
        else Ok(if index < length then Some(contents[index]) else None)
    {
      var found := NodeAt(index);
      if found.Err? { return Err(found.error); }
      var node := found.value;
      return Ok(if node != null then Some(node.value) else None);
    }

    /** Takes the value at `index` out. An index outside 0..length is out of range, and at the end
        there is no node to take links from; either error leaves the list as it was. */
    method Remove(index: int) returns (r: Result<T, Error>)
      requires Valid()
      modifies this, spine
      ensures Valid()
      ensures r == if index < 0 || index > old(length) then Err(RangeError)
        else if index == old(length) then Err(TypeError)
        else Ok(old(contents)[index])
      ensures if r.Ok? then spine == Without(old(spine), index) && contents == Without(old(contents), index)
        else spine == old(spine) && contents == old(contents)
    {
      if index < 0 || index > length { return Err(RangeError); }
      hide Linked, Distinct, Without;
      ghost var was := spine;
      var removeNode, prevNode, nextNode := Detach(index);
      if removeNode == null { return Err(TypeError); }
      Splice(index, prevNode, nextNode);
      length := length - 1;
      contents := Without(contents, index);
      return Ok(removeNode.value);
    }

    /** Finds the node at `index` and its neighbours, and moves the head or the tail off it. */
    method Detach(index: nat) returns (removeNode: Node?<T>, prevNode: Node?<T>, nextNode: Node?<T>)
      requires Valid() && index <= length
      modifies this`head, this`tail
      ensures removeNode == NodeOrNull(spine, index)
      ensures index < length ==> prevNode == NodeOrNull(spine, index - 1) && nextNode == NodeOrNull(spine, index + 1)
      ensures if index == length then head == old(head) && tail == old(tail) else
        head == NodeOrNull(Without(spine, index), 0) && tail == NodeOrNull(Without(spine, index), length - 2)
    {
      hide Linked, Distinct, Without;
      removeNode, prevNode, nextNode := null, null, null;
      if index < length {
        LinksOf(spine, index);
        EndsWithout(spine, index);
      }
      if index == 0 {
        if head == null { return; }
        removeNode := head;
        nextNode := head.next;
        head := nextNode;
      }
      if index == length - 1 {
        removeNode := tail;
        prevNode := tail.prev;
        tail := prevNode;
      }
      if removeNode == null {
        removeNode := Seek(index);
        if removeNode == null { return; }
        prevNode := removeNode.prev;
        nextNode := removeNode.next;
      }
    }

    /** Links the neighbours of the node at `index` to each other. */
    method Splice(index: nat, prevNode: Node?<T>, nextNode: Node?<T>)
      requires index < |spine| && Distinct(spine) && Linked(spine) && Holds(spine, contents)
      requires prevNode == NodeOrNull(spine, index - 1) && nextNode == NodeOrNull(spine, index + 1)
      modifies this`spine, spine
      ensures spine == Without(old(spine), index) && Distinct(spine) && Linked(spine)
      ensures Holds(spine, Without(contents, index)) && old(spine)[index].value == contents[index]
    {
      ghost var was := spine;
      if prevNode != null { prevNode.next := nextNode; }
      if nextNode != null { nextNode.prev := prevNode; }
      assert SplicedNexts(was, index) && SplicedPrevs(was, index);
      hide Linked, Distinct, Without, SplicedNexts, SplicedPrevs;
      SpliceLinks(was, index);
      HoldsWithout(was, contents, index);
      spine := Without(spine, index);
    }
  }

  /** The links of the nodes after the one at `index` has been spliced out. */
  ghost predicate SplicedNexts<T>(was: seq<Node<T>>, index: nat)
    reads was
  {
    forall i {:trigger was[i].next} | 0 <= i < |was| ::
      was[i].next == NodeOrNull(was, if i == index - 1 then index + 1 else i + 1)
  }

  ghost predicate SplicedPrevs<T>(was: seq<Node<T>>, index: nat)
    reads was
  {
    forall i {:trigger was[i].prev} | 0 <= i < |was| ::
      was[i].prev == NodeOrNull(was, if i == index + 1 then index - 1 else i - 1)
  }

  lemma SpliceLinks<T>(was: seq<Node<T>>, index: nat)
    requires index < |was| && Distinct(was) && SplicedNexts(was, index) && SplicedPrevs(was, index)
    ensures Linked(Without(was, index)) && Distinct(Without(was, index))
  {
    hide Distinct, SplicedNexts, SplicedPrevs;
    var s := Without(was, index);
    DistinctWithout(was, index);
    forall i | 0 <= i < |s| ensures s[i].next == NodeOrNull(s, i + 1) && s[i].prev == NodeOrNull(s, i - 1) {
      SplicedNode(was, index, i);
    }
  }

  lemma DistinctWithout<T>(was: seq<Node<T>>, index: nat)
    requires index < |was| && Distinct(was)
    ensures Distinct(Without(was, index))
  {}

  lemma SplicedNode<T>(was: seq<Node<T>>, index: nat, i: nat)
    requires index < |was| && SplicedNexts(was, index) && SplicedPrevs(was, index) && i < |was| - 1
    ensures var s := Without(was, index);
      s[i].next == NodeOrNull(s, i + 1) && s[i].prev == NodeOrNull(s, i - 1)
  {
    var k := if i < index then i else i + 1;
    assert was[k].next == NodeOrNull(was, if k == index - 1 then index + 1 else k + 1);
    assert was[k].prev == NodeOrNull(was, if k == index + 1 then index - 1 else k - 1);
  }

  twostate lemma AddLinks<T>(spine: seq<Node<T>>, new node: Node<T>)
    requires spine != [] && old(Linked(spine)) && Distinct(spine) && node !in spine
    requires node.prev == spine[|spine| - 1] && node.next == null && spine[|spine| - 1].next == node
    requires forall i | 0 <= i < |spine| :: spine[i].prev == old(spine[i].prev)
    requires forall i | 0 <= i < |spine| - 1 :: spine[i].next == old(spine[i].next)
    ensures Linked(spine + [node]) && Distinct(spine + [node])
  {
    var s := spine + [node];
    forall i | 0 <= i < |s| ensures s[i].next == NodeOrNull(s, i + 1) && s[i].prev == NodeOrNull(s, i - 1) {
      if i < |spine| { assert s[i] == spine[i]; }
    }
  }

  lemma HoldsWithout<T>(spine: seq<Node<T>>, contents: seq<T>, index: nat)
    requires Holds(spine, contents) && index < |spine|
    ensures Holds(Without(spine, index), Without(contents, index))
  {}

  lemma LinksOf<T>(spine: seq<Node<T>>, i: nat)
    requires Linked(spine) && i < |spine|
    ensures spine[i].next == NodeOrNull(spine, i + 1) && spine[i].prev == NodeOrNull(spine, i - 1)
  {}

  lemma EndsWithout<T>(spine: seq<Node<T>>, index: nat)
    requires index < |spine|
    ensures var s := Without(spine, index);
      |s| == |spine| - 1 &&
      NodeOrNull(s, 0) == NodeOrNull(spine, if index == 0 then 1 else 0) &&
      NodeOrNull(s, |s| - 1) == NodeOrNull(spine, if index == |spine| - 1 then |spine| - 2 else |spine| - 1)
  {}

  ghost predicate Holds<T>(spine: seq<Node<T>>, contents: seq<T>)
    reads spine
  {
    |contents| == |spine| && forall i | 0 <= i < |spine| :: spine[i].value == contents[i]
  }

  ghost predicate Distinct<T>(spine: seq<Node<T>>) {
    forall i, j | 0 <= i < j < |spine| :: spine[i] != spine[j]
  }

  ghost predicate Linked<T>(spine: seq<Node<T>>)
    reads spine
  {
    && (forall i {:trigger spine[i].next} | 0 <= i < |spine| :: spine[i].next == NodeOrNull(spine, i + 1))
    && (forall i {:trigger spine[i].prev} | 0 <= i < |spine| :: spine[i].prev == NodeOrNull(spine, i - 1))
  }

  ghost function NodeOrNull<T>(spine: seq<Node<T>>, i: int): Node?<T> {
    if 0 <= i < |spine| then spine[i] else null
  }
}

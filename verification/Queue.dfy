/** packages/core/lib/Queue.ts: a first-in, first-out queue over the linked list. */
module Queue {
  import opened Wrappers
  import opened LinkedList

  class Queue<T> {
    const list: LinkedList<T>

    ghost predicate Valid()
      reads list, list.spine
    {
      list.Valid()
    }

    ghost function Items(): seq<T>
      reads list
    {
      list.contents
    }

    /** The list has no nodes but those of `was` and new ones. */
    twostate predicate OnlyFresh(was: seq<Node<T>>)
      reads list
    {
      forall i | 0 <= i < |list.spine| :: list.spine[i] in was || fresh(list.spine[i])
    }

    constructor ()
      ensures Valid() && Items() == [] && fresh(list) && list.spine == []
    {
      list := new LinkedList<T>();
    }

    method Peek() returns (r: Option<T>)
      requires Valid()
      ensures r == if Items() == [] then None else Some(Items()[0])
    {
      var head := list.head;
      r := if head != null then Some(head.value) else None;
    }

    method Length() returns (n: nat)
      requires Valid()
      ensures n == |Items()|
    {
      n := list.length;
    }

    method Enqueue(value: T)
      requires Valid()
      modifies list, list.spine
      ensures Valid() && OnlyFresh(old(list.spine)) && Items() == old(Items()) + [value]
    {
      var node := list.Add(value);
    }

    /** Takes the oldest value; on an empty queue it throws and changes nothing. */
    method Dequeue() returns (r: Result<T, Error>)
      requires Valid()
      modifies list, list.spine
      ensures Valid() && OnlyFresh(old(list.spine))
      ensures r == if old(Items()) == [] then Err(TypeError) else Ok(old(Items())[0])
      ensures Items() == if old(Items()) == [] then [] else old(Items())[1..]
    {
      r := list.Remove(0);
    }
  }
}

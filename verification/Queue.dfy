/** The singly linked queue of src/queue.c, which refines a sequence. */
module Queue {

  class Node<T> {
    var item: T
    var next: Node?<T>

    constructor (item: T)
      ensures this.item == item && next == null
    {
      this.item, next := item, null;
    }
  }

  /** `chain` is linked front to back and ends in null. */
  ghost predicate Linked<T>(chain: seq<Node<T>>)
    reads chain
  {
    forall i {:trigger chain[i].next} :: 0 <= i < |chain| ==>
      chain[i].next == if i + 1 < |chain| then chain[i + 1] else null
  }

  ghost function Items<T>(chain: seq<Node<T>>): (s: seq<T>)
    reads chain
    ensures |s| == |chain|
  {
    seq(|chain|, i requires 0 <= i < |chain| reads chain => chain[i].item)
  }

  class Queue<T> {
    var head: Node?<T>
    var tail: Node?<T>
    ghost var chain: seq<Node<T>>

    ghost predicate Valid()
      reads this, chain
    {
      && Linked(chain)
      && (forall i, j :: 0 <= i < j < |chain| ==> chain[i] != chain[j])
      && head == (if chain == [] then null else chain[0])
      && tail == (if chain == [] then null else chain[|chain| - 1])
    }

    ghost function Contents(): seq<T>
      reads this, chain
    {
      Items(chain)
    }

    /** queue_new: a queue is born with one item. */
    constructor (item: T)
      ensures Valid() && Contents() == [item] && fresh(chain)
    {
      var node := new Node<T>(item);
      head, tail, chain := node, node, [node];
    }

    /** The struct as it lies in a map slot before queue_copy fills it. */
    constructor Empty()
      ensures Valid() && Contents() == []
    {
      head, tail, chain := null, null, [];
    }

    /** queue_copy: the two pointers move into the slot, the nodes are not copied; the source struct is given up. */
    method TakeFrom(src: Queue<T>)
      requires src.Valid() && src != this
      modifies this
      ensures Valid() && chain == old(src.chain) && Contents() == old(src.Contents())
    {
      head, tail, chain := src.head, src.tail, src.chain;
    }

    /** queue_push writes through `tail`, so the queue must not be empty. */
    method Push(item: T)
      requires Valid() && Contents() != []
      modifies this, chain
      ensures Valid() && Contents() == old(Contents()) + [item]
      ensures fresh(tail) && chain == old(chain) + [tail]
    {
      var node := new Node<T>(item);
      tail.next := node;
      tail := node;
      chain := chain + [node];
    }

    /** queue_pop. */
    method Pop() returns (r: Node?<T>)
      requires Valid()
      modifies this
      ensures Valid() && (r == null <==> old(Contents()) == [])
      ensures r == null ==> Contents() == [] && chain == old(chain)
      ensures r != null ==> r.item == old(Contents())[0] && Contents() == old(Contents())[1..]
      ensures r != null ==> chain == old(chain)[1..] && r == old(chain)[0]
    {
      if head == null {
        return null;
      }
      r := head;
      head := head.next;
      if head == null {
        tail := null;
      }
      chain := chain[1..];
    }

    /** queue_free_data: the items first, if they are wanted gone, then the nodes; each once, in order, and `next` is
        read before its node is given up. */
    method FreeData(freeItems: bool) returns (items: seq<T>, freed: seq<Node<T>>)
      requires Valid()
      ensures items == if freeItems then Contents() else []
      ensures freed == chain
    {
      items, freed := [], [];
      if freeItems {
        var node := head;
        while node != null
          invariant |items| <= |chain| && items == Contents()[..|items|]
          invariant node == if |items| < |chain| then chain[|items|] else null
          decreases |chain| - |items|
        {
          items := items + [node.item];
          node := node.next;
        }
      }
      var node := head;
      while node != null
        invariant |freed| <= |chain| && freed == chain[..|freed|]
        invariant node == if |freed| < |chain| then chain[|freed|] else null
        decreases |chain| - |freed|
      {
        var next := node.next;
        freed := freed + [node];
        node := next;
      }
    }
  }
}

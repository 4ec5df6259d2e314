/** arp_buf of src/arp.c: a slot map whose slots hold linked queues. It refines a map of sequences. */
module Pending {
  import opened SlotMap
  import opened Queue

  /** One more item for the entry of `k`. */
  function Extended<K, T>(m: ExpMap<K, seq<T>>, k: K, item: T): ExpMap<K, seq<T>> {
    if k in m.model then m.(model := m.model[k := m.model[k].(value := m.model[k].value + [item])]) else m
  }

  /** A queue of which neither the struct nor a node is written keeps its items. */
  twostate lemma Untouched<T>(q: Queue<T>)
    requires old(q.Valid()) && unchanged(q) && forall n <- q.chain :: unchanged(n)
    ensures q.Valid() && q.Contents() == old(q.Contents())
  {
    forall i | 0 <= i < |q.chain|
      ensures q.chain[i].next == old(q.chain[i].next) && q.chain[i].item == old(q.chain[i].item)
    {
      assert q.chain[i] in q.chain;
    }
  }

  class Table<K(0, ==), T> {
    const slots: SlotMap<K, Queue?<T>>
    ghost var view: ExpMap<K, seq<T>>
    /** The queues in the slots and all their nodes. */
    ghost var queues: set<Queue<T>>
    ghost var nodes: set<Node<T>>

    /** The queue in a live slot holds the items of the entry, and there are some. */
    ghost predicate Holds(e: Stamped<Queue?<T>>, s: Stamped<seq<T>>)
      reads this`queues, this`nodes, queues, nodes
    {
      && e.time == s.time && s.value != []
      && e.value != null && e.value in queues
      && (forall n <- e.value.chain :: n in nodes)
      && e.value.Valid() && e.value.Contents() == s.value
    }

    ghost predicate Apart(p: Queue?<T>, q: Queue?<T>)
      reads this`queues, queues
    {
      p in queues && q in queues && p != q && forall n <- p.chain :: n !in q.chain
    }

    /** Since the method began, queues and nodes were only added that are new. */
    twostate predicate Grew()
      reads this`queues, this`nodes
    {
      && (forall q <- queues :: q in old(queues) || fresh(q))
      && (forall n <- nodes :: n in old(nodes) || fresh(n))
    }

    /** The entries are the queues in the slots, and no two of them share a node. */
    ghost predicate Entries()
      reads this, slots, queues, nodes
    {
      && slots.model.Keys == view.model.Keys
      && (forall k <- view.model :: Holds(slots.model[k], view.model[k]))
      && (forall j, k :: j in view.model && k in view.model && j != k ==>
            Apart(slots.model[j].value, slots.model[k].value))
    }

    ghost predicate Valid(now: nat)
      reads this, slots, slots.slots, queues, nodes
    {
      && slots.Valid(now) && slots.timeout == 0 && Entries()
      && view.size == slots.size && view.max == slots.maxSize && view.timeout == 0
    }

    /** Only the entry of `k` is new: nothing but its place among the others is left to say. */
    lemma OneChanged(k: K, now: nat)
      requires slots.Valid(now) && slots.timeout == 0 && slots.model.Keys == view.model.Keys
      requires view.size == slots.size && view.max == slots.maxSize && view.timeout == 0
      requires k in view.model && Holds(slots.model[k], view.model[k])
      requires forall j :: j in view.model && j != k ==>
                 && Holds(slots.model[j], view.model[j])
                 && Apart(slots.model[j].value, slots.model[k].value)
                 && Apart(slots.model[k].value, slots.model[j].value)
      requires forall i, j :: i in view.model && j in view.model && i != j && i != k && j != k ==>
                 Apart(slots.model[i].value, slots.model[j].value)
      ensures Valid(now)
    {
      hide SlotMap.Valid, Holds, Apart;
    }

    constructor (requested: nat, entrySize: nat)
      requires entrySize > 0
      ensures (forall now: nat :: Valid(now)) && view.model == map[] && view.size == 0 && view.timeout == 0
      ensures 0 < requested && requested * entrySize <= MAP_MAX_LEN ==> view.max == requested
    {
      slots := new SlotMap<K, Queue?<T>>(requested, entrySize, 0);
      new;
      queues, nodes := {}, {};
      view := ExpMap(map[], 0, slots.maxSize, 0);
      forall now: nat
        ensures Valid(now)
      {
        hide Represents;
        assert slots.Valid(now);
      }
    }

    lemma Later(now: nat, later: nat)
      requires Valid(now) && now <= later
      ensures Valid(later)
    {
      RepresentsLater(slots.slots[..], slots.View(), now, later);
    }

    /** What map_get finds is the queue of the entry. */
    method Find(k: K, now: nat) returns (q: Queue?<T>)
      requires Valid(now)
      ensures q != null <==> view.Has(k, now)
      ensures q != null ==> k in slots.model && q == slots.model[k].value
    {
      hide Represents;
      var slot := slots.Get(k, now);
      assert view.Has(k, now) == slots.View().Has(k, now);
      if slot == -1 {
        return null;
      }
      q := slots.slots[slot].value;
    }

    /** The waiting half of arp_out: push to the queue of `k`, or start one in a slot of its own. */
    method Append(k: K, item: T, now: nat) returns (started: bool)
      requires Valid(now) && now != 0
      modifies this, slots`size, slots`model, slots.slots, queues, nodes
      ensures Valid(now) && started == !old(view).Has(k, now)
      ensures view == if started then old(view).Set(k, [item], now) else Extended(old(view), k, item)
      ensures Grew()
    {
      var q := Find(k, now);
      started := q == null;
      if started {
        Start(k, item, now);
      } else {
        Extend(q, k, item, now);
      }
    }

    /** The push: every queue but the one of `k` is as it was. */
    method Lengthen(q: Queue<T>, ghost k: K, item: T)
      requires Entries() && k in view.model && q == slots.model[k].value
      modifies this`nodes, queues, nodes
      ensures q.Valid() && q.Contents() == view.model[k].value + [item] && slots.model[k].time == view.model[k].time
      ensures q in queues && (forall n <- q.chain :: n in nodes) && Grew()
      ensures forall j <- view.model :: j != k ==>
                && Holds(slots.model[j], view.model[j])
                && Apart(slots.model[j].value, q) && Apart(q, slots.model[j].value)
      ensures forall i, j :: i in view.model && j in view.model && i != j && i != k && j != k ==>
                Apart(slots.model[i].value, slots.model[j].value)
    {
      hide Queue.Valid, Queue.Contents;
      assert Holds(slots.model[k], view.model[k]);
      q.Push(item);
      nodes := nodes + (set n <- q.chain);
      forall j | j in view.model && j != k
        ensures Holds(slots.model[j], view.model[j])
        ensures Apart(slots.model[j].value, q) && Apart(q, slots.model[j].value)
      {
        assert old(Holds(slots.model[j], view.model[j]));
        assert old(Apart(slots.model[j].value, slots.model[k].value)
               && Apart(slots.model[k].value, slots.model[j].value));
        assert forall n <- old(slots.model[j].value.chain) :: n !in old(q.chain) && unchanged(n);
        Untouched(slots.model[j].value);
      }
      forall i, j | i in view.model && j in view.model && i != j && i != k && j != k
        ensures Apart(slots.model[i].value, slots.model[j].value)
      {
        assert old(Apart(slots.model[i].value, slots.model[j].value));
      }
    }

    method Extend(q: Queue<T>, ghost k: K, item: T, ghost now: nat)
      requires Valid(now) && k in view.model && q == slots.model[k].value
      modifies this`nodes, this`view, queues, nodes
      ensures Valid(now) && view == Extended(old(view), k, item) && Grew()
    {
      hide SlotMap.Valid, Queue.Valid, Queue.Contents, Apart;
      Lengthen(q, k, item);
      view := Extended(view, k, item);
      OneChanged(k, now);
    }

    method Start(k: K, item: T, now: nat)
      requires Valid(now) && now != 0 && !view.Has(k, now)
      modifies this`queues, this`nodes, this`view, slots`size, slots`model, slots.slots
      ensures Valid(now) && view == old(view).Set(k, [item], now)
      ensures Grew()
    {
      hide SlotMap.Valid, Queue.Valid, Queue.Contents;
      var q := new Queue<T>(item);
      var cell := new Queue<T>.Empty();
      cell.TakeFrom(q);
      Place(cell, k, now);
    }

    /** map_set with the queue as the value. */
    method Place(cell: Queue<T>, k: K, now: nat)
      requires Valid(now) && now != 0 && !view.Has(k, now)
      requires cell.Valid() && |cell.Contents()| > 0 && cell !in queues && forall n <- cell.chain :: n !in nodes
      modifies this`queues, this`nodes, this`view, slots`size, slots`model, slots.slots
      ensures Valid(now) && view == old(view).Set(k, cell.Contents(), now)
      ensures queues <= old(queues) + {cell} && nodes <= old(nodes) + (set n <- cell.chain)
    {
      hide Represents, Queue.Valid, Queue.Contents, Holds, Apart;
      assert view.Has(k, now) == slots.View().Has(k, now) by { KeyAgrees(k, now); }
      assert k !in view.model by { KeyAgrees(k, now); }
      var ok := slots.Set(k, cell, now);
      if ok {
        Record(cell, k, now);
      }
    }

    lemma KeyAgrees(k: K, now: nat)
      requires Valid(now)
      ensures k in view.model <==> k in slots.model
      ensures k in view.model ==> view.Has(k, now) && slots.View().Has(k, now)
    {
      hide Queue.Valid, Queue.Contents, Sound, Complete, Unique;
    }

    ghost method Record(cell: Queue<T>, k: K, now: nat)
      requires slots.Valid(now) && slots.timeout == 0 && k !in view.model
      requires k in slots.model && slots.model[k] == Stamped(cell, now) && view.model.Keys == slots.model.Keys - {k}
      requires forall j <- view.model :: Holds(slots.model[j], view.model[j])
      requires forall i, j :: i in view.model && j in view.model && i != j ==>
                 Apart(slots.model[i].value, slots.model[j].value)
      requires slots.size == view.size + 1 && view.max == slots.maxSize && view.timeout == 0
      requires cell.Valid() && |cell.Contents()| > 0 && cell !in queues && forall n <- cell.chain :: n !in nodes
      modifies this`queues, this`nodes, this`view
      ensures Valid(now) && queues == old(queues) + {cell} && nodes == old(nodes) + (set n <- cell.chain)
      ensures view == ExpMap(old(view).model[k := Stamped(cell.Contents(), now)], old(view).size + 1, old(view).max, 0)
    {
      hide SlotMap.Valid, Queue.Valid, Queue.Contents;
      queues, nodes := queues + {cell}, nodes + (set n <- cell.chain);
      view := ExpMap(view.model[k := Stamped(cell.Contents(), now)], view.size + 1, view.max, 0);
      forall j | j in view.model && j != k
        ensures Holds(slots.model[j], view.model[j])
        ensures Apart(slots.model[j].value, cell) && Apart(cell, slots.model[j].value)
      {
        assert old(Holds(slots.model[j], view.model[j]));
      }
      forall i, j | i in view.model && j in view.model && i != j && i != k && j != k
        ensures Apart(slots.model[i].value, slots.model[j].value)
      {
        assert old(Apart(slots.model[i].value, slots.model[j].value));
      }
      OneChanged(k, now);
    }

    /** The entry of `k` is being emptied; every other one is as it should be. */
    ghost predicate Others(k: K, now: nat)
      reads this, slots, slots.slots, queues, nodes
    {
      && slots.Valid(now) && slots.timeout == 0
      && view.size == slots.size && view.max == slots.maxSize && view.timeout == 0
      && slots.model.Keys == view.model.Keys && k in view.model && slots.model[k].time == view.model[k].time
      && (forall j <- view.model :: j != k ==> Holds(slots.model[j], view.model[j]))
      && (forall i, j :: i in view.model && j in view.model && i != j ==>
            Apart(slots.model[i].value, slots.model[j].value))
    }

    lemma OthersToo(k: K, now: nat)
      requires Valid(now) && k in view.model
      ensures Others(k, now)
      ensures var q := slots.model[k].value;
              q != null && q in queues && q.Valid() && q.Contents() == view.model[k].value
    {
      hide SlotMap.Valid, Queue.Valid, Queue.Contents, Apart;
    }

    /** One queue_pop in the drain loop of arp_in. */
    method PopFrom(q: Queue<T>, ghost k: K, ghost now: nat) returns (node: Node?<T>)
      requires Others(k, now) && q == slots.model[k].value && q.Valid()
      modifies q
      ensures Others(k, now) && q.Valid()
      ensures if old(q.Contents()) == [] then node == null && q.Contents() == []
              else node != null && node.item == old(q.Contents())[0] && q.Contents() == old(q.Contents())[1..]
    {
      hide SlotMap.Valid, Queue.Valid, Queue.Contents;
      ghost var chain := q.chain;
      node := q.Pop();
      forall j | j in view.model && j != k
        ensures Holds(slots.model[j], view.model[j])
      {
        assert old(Holds(slots.model[j], view.model[j]));
        assert old(Apart(slots.model[j].value, slots.model[k].value));
        Untouched(slots.model[j].value);
      }
      assert forall n <- q.chain :: n in chain;
      forall i, j | i in view.model && j in view.model && i != j
        ensures Apart(slots.model[i].value, slots.model[j].value)
      {
        assert old(Apart(slots.model[i].value, slots.model[j].value));
        assert i != k ==> slots.model[i].value.chain == old(slots.model[i].value.chain);
        assert j != k ==> slots.model[j].value.chain == old(slots.model[j].value.chain);
      }
    }

    /** What follows the loop: the entry goes, and then what the queue still held, which is nothing. */
    method Forget(q: Queue<T>, k: K, now: nat)
      requires Others(k, now) && q == slots.model[k].value && q.Valid() && q.Contents() == []
      modifies this`view, slots`size, slots`model, slots.slots
      ensures Valid(now) && old(view).size > 0 && old(view).Has(k, now)
      ensures view == old(view).Delete(k, now)
    {
      hide SlotMap.Valid, Queue.Valid, Queue.Contents, Holds, Apart;
      assert slots.View().Has(k, now) && view.Has(k, now) by { TimesNonzero(k, now); }
      slots.Delete(k, now);
      var copies, rest := q.FreeData(true);
      assert copies == [];  // the copies that the pops returned are never freed
      view := view.Delete(k, now);
    }

    lemma TimesNonzero(k: K, now: nat)
      requires slots.Valid(now) && slots.timeout == 0 && k in slots.model
      ensures slots.View().Has(k, now)
    {
      hide Sound, Complete, Unique;
    }
  }
}

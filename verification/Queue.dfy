/** The fixed-size, never-wrapping queue of the breadth-first search. */
module Queue {
  import opened Paths

  class BQueue {
    const slots: array<BSlot>
    var first: nat
    var last: nat

    ghost predicate Valid()
      reads this
    {
      first <= last <= slots.Length
    }

    /** Everything ever enqueued. */
    ghost function Items(): (r: seq<BSlot>)
      requires Valid()
      reads this, slots
      ensures |r| == last
    {
      slots[..last]
    }

    constructor (capacity: nat)
      ensures Valid() && first == 0 && Items() == [] && slots.Length == capacity && fresh(slots)
    {
      slots := new BSlot[capacity](_ => BSlot(0, 0, 0));
      first, last := 0, 0;
    }

    method Enqueue(x: BSlot)
      requires Valid() && last < slots.Length
      modifies this`last, slots
      ensures Valid() && Items() == old(Items()) + [x]
    {
      slots[last] := x;
      last := last + 1;
    }

    method Dequeue() returns (x: BSlot)
      requires Valid() && first < last
      modifies this`first
      ensures Valid() && first == old(first) + 1 && x == Items()[old(first)]
    {
      x := slots[first];
      first := first + 1;
    }
  }
}

/** The bucket container: slot storage sized by a power of two. */
module Container {
  import opened Bits
  import opened Hashing
  import opened Table
  import opened Doubling

  function BlankUpTo<K, V>(slots: nat, n: nat): (r: Buckets<K, V>)
    ensures |r| == n && forall b :: 0 <= b < n ==> r[b] == Empties(slots)
  {
    if n == 0 then [] else BlankUpTo(slots, n - 1) + [Empties(slots)]
  }

  function Blank<K, V>(slots: nat, hp: nat): (r: Buckets<K, V>)
    ensures |r| == Pow2(hp) && forall b :: 0 <= b < |r| ==> r[b] == Empties(slots)
  {
    BlankUpTo(slots, Pow2(hp))
  }

  lemma {:induction false} BlankIsGood<K(!new), V>(h: K -> Hash, slots: nat, hp: nat)
    ensures Good(h, slots, hp, Blank<K, V>(slots, hp)) && Contents(Blank<K, V>(slots, hp)) == map[]
  {
    assert forall b: nat, s: nat, k: K :: !HasKey(Blank<K, V>(slots, hp), b, s, k);
    assert Keys(Blank<K, V>(slots, hp)) == {};
  }

  lemma {:induction false} BlankShape<K, V>(slots: nat, hp: nat)
    ensures Shape(Blank<K, V>(slots, hp), slots, hp)
  {
  }

  lemma {:induction false} BlankUntouched<K, V>(slots: nat, hp: nat, waiting: set<nat>)
    requires hp > 0 && forall ob: nat :: ob in waiting ==> ob < Pow2(hp - 1)
    ensures Untouched(slots, hp, Blank<K, V>(slots, hp), waiting)
  {
  }

  class BucketContainer<K(==), V> {
    const slots: nat
    var hashpower: nat
    var cells: Buckets<K, V>  // empty once deallocated

    ghost predicate Valid()
      reads this
    {
      cells == [] || Shape(cells, slots, hashpower)
    }

    constructor (hp: nat, slots: nat)
      ensures Valid() && this.slots == slots && hashpower == hp && cells == Blank(slots, hp)
    {
      this.slots := slots;
      hashpower := hp;
      cells := Blank(slots, hp);
    }

    /** Constructs live data in an empty slot. */
    method SetKV(ind: nat, slot: nat, p: nat, k: K, v: V)
      requires ind < |cells| && slot < |cells[ind]| && cells[ind][slot].Empty?
      modifies this`cells
      ensures cells == Put(old(cells), ind, slot, Full(p, k, v))
    {
      cells := Put(cells, ind, slot, Full(p, k, v));
    }

    /** Assigns through the reference returned by mapped(slot). */
    method SetMapped(ind: nat, slot: nat, v: V)
      requires ind < |cells| && slot < |cells[ind]| && cells[ind][slot].Full?
      modifies this`cells
      ensures cells == Put(old(cells), ind, slot, old(cells)[ind][slot].(value := v))
    {
      cells := Put(cells, ind, slot, cells[ind][slot].(value := v));
    }

    /** Destroys live data. */
    method EraseKV(ind: nat, slot: nat)
      requires ind < |cells| && slot < |cells[ind]| && cells[ind][slot].Full?
      modifies this`cells
      ensures cells == Put(old(cells), ind, slot, Empty)
    {
      cells := Put(cells, ind, slot, Empty);
    }

    /** Destroys all live data, slot by slot. */
    method Clear()
      requires Valid()
      modifies this`cells
      ensures Valid() && |cells| == |old(cells)|
      ensures cells != [] ==> cells == Blank(slots, hashpower)
    {
      var i: nat := 0;
      while i < |cells|
        invariant 0 <= i <= |cells| == |old(cells)|
        invariant forall b :: 0 <= b < |cells| ==> |cells[b]| == slots
        invariant forall b :: 0 <= b < i ==> cells[b] == Empties(slots)
      {
        var j: nat := 0;
        ghost var before := cells;
        while j < slots
          invariant 0 <= j <= slots && |cells| == |before|
          invariant |cells[i]| == slots && cells == before[i := cells[i]]
          invariant forall t :: 0 <= t < j ==> cells[i][t].Empty?
        {
          if cells[i][j].Full? {
            EraseKV(i, j);
          }
          j := j + 1;
        }
        i := i + 1;
      }
    }

    /** Exchanges buckets and hashpower with another container. */
    method Swap(other: BucketContainer<K, V>)
      requires Valid() && other.Valid() && slots == other.slots
      modifies this, other
      ensures Valid() && other.Valid()
      ensures cells == old(other.cells) && hashpower == old(other.hashpower)
      ensures other.cells == old(cells) && other.hashpower == old(hashpower)
    {
      hashpower, other.hashpower := other.hashpower, hashpower;
      cells, other.cells := other.cells, cells;
    }

    /** Move assignment from a fresh container of hashpower hp. */
    method AssignFresh(hp: nat)
      requires Valid()
      modifies this
      ensures Valid() && hashpower == hp && cells == Blank(slots, hp)
    {
      hashpower := hp;
      cells := Blank(slots, hp);
    }

    /** Drops all data; the hashpower stays. */
    method ClearAndDeallocate()
      requires Valid()
      modifies this`cells
      ensures Valid() && cells == []
    {
      Clear();
      cells := [];
    }
  }
}

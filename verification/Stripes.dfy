/** Per-stripe metadata: element counters and migration flags. */
module Stripes {
  /** The metadata kept beside each spinlock. */
  datatype Lock = Lock(elemCounter: int, isMigrated: bool)

  function Sum(locks: seq<Lock>): int {
    if locks == [] then 0 else Sum(locks[..|locks| - 1]) + locks[|locks| - 1].elemCounter
  }

  function Unmigrated(locks: seq<Lock>): nat {
    if locks == [] then 0
    else Unmigrated(locks[..|locks| - 1]) + if locks[|locks| - 1].isMigrated then 0 else 1
  }

  lemma {:induction false} SumUpdate(locks: seq<Lock>, l: nat, x: Lock)
    requires l < |locks|
    ensures Sum(locks[l := x]) == Sum(locks) - locks[l].elemCounter + x.elemCounter
  {
    var n := |locks| - 1;
    if l == n {
      assert locks[l := x][..n] == locks[..n];
    } else {
      assert locks[l := x][..n] == locks[..n][l := x];
      SumUpdate(locks[..n], l, x);
    }
  }

  lemma {:induction false} UnmigratedUpdate(locks: seq<Lock>, l: nat, x: Lock)
    requires l < |locks|
    ensures Unmigrated(locks[l := x]) ==
      Unmigrated(locks) - (if locks[l].isMigrated then 0 else 1) + (if x.isMigrated then 0 else 1)
  {
    var n := |locks| - 1;
    if l == n {
      assert locks[l := x][..n] == locks[..n];
    } else {
      assert locks[l := x][..n] == locks[..n][l := x];
      UnmigratedUpdate(locks[..n], l, x);
    }
  }

  lemma {:induction false} UnmigratedZero(locks: seq<Lock>)
    ensures Unmigrated(locks) == 0 <==> forall l :: 0 <= l < |locks| ==> locks[l].isMigrated
  {
    if locks != [] {
      var n := |locks| - 1;
      UnmigratedZero(locks[..n]);
      assert forall l :: 0 <= l < n ==> locks[..n][l] == locks[l];
    }
  }

  lemma {:induction false} UnmigratedFull(locks: seq<Lock>)
    requires forall l :: 0 <= l < |locks| ==> !locks[l].isMigrated
    ensures Unmigrated(locks) == |locks|
  {
    if locks != [] { UnmigratedFull(locks[..|locks| - 1]); }
  }

  lemma {:induction false} SumZero(locks: seq<Lock>)
    requires forall l :: 0 <= l < |locks| ==> locks[l].elemCounter == 0
    ensures Sum(locks) == 0
  {
    if locks != [] { SumZero(locks[..|locks| - 1]); }
  }
}

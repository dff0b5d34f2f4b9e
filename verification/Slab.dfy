/**
 The slab of relay-rs/src/main.rs: a growing vector of slots and a queue of the empty ones.
 `alloc_slot` and `free_slot` serve the TCP connections; the UDP associations use the same pair of
 collections with code of their own.
 */
module Slabs {
  import opened Wrappers

  /** The queue lists the empty slots, each once, and nothing else. */
  ghost predicate Exact<T>(slots: seq<Option<T>>, free: seq<nat>) {
    NoDup(free) && forall i: nat :: i in free <==> i < |slots| && slots[i].None?
  }

  /** How many slots are occupied. */
  function Live<T>(slots: seq<Option<T>>): nat {
    if slots == [] then 0
    else Live(slots[..|slots| - 1]) + (if slots[|slots| - 1].Some? then 1 else 0)
  }

  function Head(s: seq<nat>): (k: nat)
    ensures s != [] ==> k in s
  {
    if s == [] then 0 else s[0]
  }

  /** Without its last slot the vector has the same queue, less that slot. */
  lemma ExactShorter<T>(slots: seq<Option<T>>, free: seq<nat>, j: nat)
    requires Exact(slots, free) && slots != [] && j < |free| && free[j] == |slots| - 1
    ensures Exact(slots[..|slots| - 1], free[..j] + free[j + 1..])
  {
    var n, rest := |slots| - 1, free[..j] + free[j + 1..];
    assert free == free[..j] + [n] + free[j + 1..];
    forall k: nat
      ensures k in rest <==> k < n && slots[k].None?
    {
      assert k in free <==> k in rest || k == n;
      if k in rest {
        var m :| 0 <= m < |rest| && rest[m] == k;
        assert k == free[if m < j then m else m + 1];
      }
    }
  }

  lemma ExactSame<T>(slots: seq<Option<T>>, free: seq<nat>)
    requires Exact(slots, free) && slots != [] && slots[|slots| - 1].Some?
    ensures Exact(slots[..|slots| - 1], free)
  {
    var n := |slots| - 1;
    forall k: nat
      ensures k in free <==> k < n && slots[..n][k].None?
    {
      assert k in free <==> k < |slots| && slots[k].None?;
    }
  }

  /** The occupied slots are those the queue does not list. */
  lemma {:induction false} LiveCount<T>(slots: seq<Option<T>>, free: seq<nat>)
    requires Exact(slots, free)
    ensures Live(slots) + |free| == |slots|
  {
    if slots == [] {
      assert Head(free) !in free;
    } else {
      var n := |slots| - 1;
      if slots[n].Some? {
        ExactSame(slots, free);
        LiveCount(slots[..n], free);
      } else {
        assert n in free;
        var j :| 0 <= j < |free| && free[j] == n;
        ExactShorter(slots, free, j);
        LiveCount(slots[..n], free[..j] + free[j + 1..]);
      }
    }
  }

  /** Freeing an occupied slot, or taking the head of the queue, keeps the queue exact. */
  lemma ExactAfterFree<T>(slots: seq<Option<T>>, free: seq<nat>, i: nat)
    requires Exact(slots, free) && i < |slots| && slots[i].Some?
    ensures Exact(slots[i := None], free + [i])
  {
    assert i !in free;
    forall k: nat
      ensures k in free + [i] <==> k < |slots| && slots[i := None][k].None?
    {
      assert k in free + [i] <==> k in free || k == i;
    }
  }

  lemma ExactAfterTake<T>(slots: seq<Option<T>>, free: seq<nat>, v: T)
    requires Exact(slots, free) && free != []
    ensures free[0] < |slots| && slots[free[0]].None?
    ensures Exact(slots[free[0] := Some(v)], free[1..])
  {
    assert free[0] in free;
    var rest := free[1..];
    forall k: nat
      ensures k in rest <==> k < |slots| && slots[free[0] := Some(v)][k].None?
    {
      assert free == [free[0]] + rest;
      assert k in free <==> k == free[0] || k in rest;
      if k in rest {
        var j :| 0 <= j < |rest| && rest[j] == k;
        assert free[j + 1] == k && free[0] != free[j + 1];
      }
    }
  }

  lemma ExactAfterPush<T>(slots: seq<Option<T>>, v: T)
    requires Exact(slots, [])
    ensures Exact(slots + [Some(v)], [])
  {
    forall k: nat
      ensures k in [] <==> k < |slots + [Some(v)]| && (slots + [Some(v)])[k].None?
    {
      assert k in [] <==> k < |slots| && slots[k].None?;
    }
  }

  /** The slots after a pass over the first `n` of them that frees those whose index is in `doomed`. */
  function Swept<T>(slots: seq<Option<T>>, doomed: set<nat>, n: nat): (r: seq<Option<T>>)
    requires n <= |slots|
    ensures |r| == |slots|
  {
    if n == 0 then slots
    else
      var s := Swept(slots, doomed, n - 1);
      if n - 1 in doomed then s[n - 1 := None] else s
  }

  /** The pass frees the doomed slots it reached and leaves every other slot alone. */
  lemma {:induction false} SweptAt<T>(slots: seq<Option<T>>, doomed: set<nat>, n: nat, j: nat)
    requires n <= |slots| && j < |slots|
    ensures Swept(slots, doomed, n)[j] == if j < n && j in doomed then None else slots[j]
  {
    if n > 0 {
      SweptAt(slots, doomed, n - 1, j);
    }
  }

  class Slab<T> {
    var slots: seq<Option<T>>
    var free: seq<nat>
    ghost var peak: nat   // the most slots ever occupied at once

    /** The vector never outgrows the peak number of occupied slots; `LiveCount` counts them. */
    ghost predicate Valid()
      reads this
    {
      Exact(slots, free) && |slots| <= peak
    }

    ghost function Occupied(): int
      reads this
    {
      |slots| - |free|
    }

    constructor ()
      ensures Valid() && slots == [] && peak == 0
    {
      slots, free, peak := [], [], 0;
    }

    /** `alloc_slot`: reuse the slot that has been empty longest, or grow. */
    method Alloc(val: T) returns (idx: nat)
      requires Valid()
      modifies this
      ensures Valid()
      ensures idx == if old(free) == [] then |old(slots)| else old(free)[0]
      ensures old(free) != [] ==> idx < |old(slots)|
      ensures idx < |slots| && (idx < |old(slots)| ==> old(slots)[idx].None?)
      ensures slots == if old(free) == [] then old(slots) + [Some(val)] else old(slots)[idx := Some(val)]
      ensures free == if old(free) == [] then [] else old(free)[1..]
      ensures peak == if Occupied() > old(peak) then Occupied() else old(peak)
    {
      if free != [] {
        ExactAfterTake(slots, free, val);
        idx := free[0];
        free, slots := free[1..], slots[idx := Some(val)];
      } else {
        ExactAfterPush(slots, val);
        idx := |slots|;
        slots := slots + [Some(val)];
      }
      if Occupied() > peak {
        peak := Occupied();
      }
    }

    /** `free_slot` on an occupied slot. */
    method Free(idx: nat)
      requires Valid() && idx < |slots| && slots[idx].Some?
      modifies this
      ensures Valid()
      ensures slots == old(slots)[idx := None] && free == old(free) + [idx]
      ensures peak == old(peak)
    {
      ExactAfterFree(slots, free, idx);
      slots, free := slots[idx := None], free + [idx];
    }
  }
}

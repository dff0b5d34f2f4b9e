/**
 The slab of TCP connections with its 16-bit generation counter (relay-rs/src/main.rs): which
 connection an epoll token reaches.  Nothing here looks inside a connection.
 */
module ConnTables {
  import opened Wrappers
  import opened Tokens
  import opened Slabs
  import opened Generations
  import opened Connection

  /** The ghost record agrees with the slots: numbers, generations and membership. */
  ghost predicate Consistent(slots: seq<Option<Conn>>, held: Held, issued: seq<nat>, members: set<Conn>) {
    && |held| == |slots| && Recorded(held, issued)
    && (forall i :: 0 <= i < |slots| ==> (slots[i].Some? <==> held[i].Some?))
    && (forall i :: 0 <= i < |slots| && slots[i].Some? ==>
          && slots[i].value in members
          && held[i].value == slots[i].value.id && slots[i].value.gen == held[i].value % GENERATIONS)
    && (forall c :: c in members ==> c.id < |issued| && slots[issued[c.id]] == Some(c))
  }

  lemma ConsistentAfterPlace(slots: seq<Option<Conn>>, held: Held, issued: seq<nat>, members: set<Conn>,
                             slots': seq<Option<Conn>>, i: nat, conn: Conn)
    requires Consistent(slots, held, issued, members)
    requires conn.id == |issued| && conn.gen == |issued| % GENERATIONS
    requires i <= |slots| && (i < |slots| ==> slots[i].None?)
    requires slots' == if i < |slots| then slots[i := Some(conn)] else slots + [Some(conn)]
    ensures Consistent(slots', Place(held, i, conn.id), issued + [i], members + {conn})
  {
    RecordedAfterPlace(held, issued, i);
  }

  lemma ConsistentAfterClear(slots: seq<Option<Conn>>, held: Held, issued: seq<nat>, members: set<Conn>, i: nat)
    requires Consistent(slots, held, issued, members) && i < |slots| && slots[i].Some?
    ensures Consistent(slots[i := None], held[i := None], issued, members - {slots[i].value})
  {
  }

  /** The wrapping counter keeps counting modulo 65536. */
  lemma NextGeneration(n: nat)
    ensures (n % GENERATIONS + 1) % GENERATIONS == (n + 1) % GENERATIONS
  {
  }

  class ConnTable {
    const slab: Slab<Conn>
    var slabGen: nat              // u16
    ghost var issued: seq<nat>    // the slot given to every connection ever built
    ghost var held: Held          // the number of the connection in every slot
    ghost var members: set<Conn>  // the connections in the slab

    ghost predicate Valid()
      reads this, slab
    {
      && slab.Valid()
      && slabGen == |issued| % GENERATIONS
      && Consistent(slab.slots, held, issued, members)
    }

    constructor ()
      ensures Valid() && issued == [] && members == {} && fresh(slab)
    {
      slab := new Slab<Conn>();
      slabGen, issued, held, members := 0, [], [], {};
    }

    /** Different members have different numbers. */
    lemma NumbersDiffer(c: Conn, d: Conn)
      requires Valid() && c in members && d in members && c != d
      ensures c.id != d.id
    {
    }

    /** Store the connection that was built with the current generation; the counter wraps. */
    method Insert(conn: Conn) returns (idx: nat)
      requires Valid() && conn.id == |issued| && conn.gen == slabGen
      modifies this, slab
      ensures Valid() && idx < |held| && held[idx] == Some(conn.id) && slab.slots[idx] == Some(conn)
      ensures issued == old(issued) + [idx] && members == old(members) + {conn}
      ensures idx <= |old(held)| && held == Place(old(held), idx, conn.id)
    {
      NextGeneration(conn.id);
      slabGen := (slabGen + 1) % GENERATIONS;
      assert slabGen == (conn.id + 1) % GENERATIONS;
      ghost var before := slab.slots;
      idx := slab.Alloc(conn);
      ConsistentAfterPlace(before, held, issued, members, slab.slots, idx, conn);
      held, issued, members := Place(held, idx, conn.id), issued + [idx], members + {conn};
      assert |issued| == conn.id + 1;
    }

    /** Forget a connection; dropping it closes its descriptors. */
    method Clear(idx: nat)
      requires Valid() && idx < |held| && held[idx].Some?
      modifies this, slab
      ensures Valid() && issued == old(issued) && held == old(held)[idx := None]
      ensures slab.slots == old(slab.slots)[idx := None]
      ensures members == old(members) - {old(slab.slots)[idx].value}
    {
      ConsistentAfterClear(slab.slots, held, issued, members, idx);
      held, members := held[idx := None], members - {slab.slots[idx].value};
      slab.Free(idx);
    }

    /** The connection an event is for: its slot must be occupied and of the token's generation. */
    method Find(token: nat) returns (found: Option<nat>)
      requires Valid()
      ensures found == Lookup(held, token)
      ensures found.Some? ==> found.value < |held| && held[found.value].Some?
    {
      var (gen, idx, remote) := Decode(token);
      if idx < |slab.slots| && slab.slots[idx].Some? && slab.slots[idx].value.gen == gen {
        found := Some(idx);
      } else {
        found := None;
      }
    }
  }
}

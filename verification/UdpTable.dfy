/**
 The UDP association table of relay-rs/src/main.rs: a hash map from client addresses to slots, the
 slots themselves, and the queue of empty slots.  Together they implement a plain map from clients
 to associations.
 */
module UdpTables {
  import opened Wrappers
  import opened Slabs

  /** A socket address as received; IPv6 addresses carry a flow label and a scope. */
  datatype SockAddr =
    | V4(ip: nat, port: nat)
    | V6(ip: nat, port: nat, flow: nat, scope: nat)
    | Exotic(bytes: seq<nat>)

  /** The hash-map key. */
  datatype NetAddr = Net4(ip: nat, port: nat) | Net6(ip: nat, port: nat)

  /** `storage_to_net`: flow label and scope are dropped, other families have no key. */
  function StorageToNet(a: SockAddr): Option<NetAddr> {
    match a
    case V4(ip, port) => Some(Net4(ip, port))
    case V6(ip, port, _, _) => Some(Net6(ip, port))
    case Exotic(_) => None
  }

  datatype Assoc = Assoc(addr: SockAddr, net: Option<NetAddr>, upFd: nat, lastAct: nat)

  /** Who counts as the same client: equal keys where there is one, equal bytes otherwise. */
  datatype Client = ByNet(net: NetAddr) | ByBytes(addr: SockAddr)

  function ClientOf(a: SockAddr): Client {
    match StorageToNet(a)
    case Some(net) => ByNet(net)
    case None => ByBytes(a)
  }

  /** The same client: same family, address and port; flow label and scope do not matter. */
  predicate SameClient(a: SockAddr, b: SockAddr) {
    match (a, b)
    case (V4(ip, port), V4(ip', port')) => ip == ip' && port == port'
    case (V6(ip, port, _, _), V6(ip', port', _, _)) => ip == ip' && port == port'
    case (Exotic(bytes), Exotic(bytes')) => bytes == bytes'
    case _ => false
  }

  lemma ClientsAgree(a: SockAddr, b: SockAddr)
    ensures ClientOf(a) == ClientOf(b) <==> SameClient(a, b)
  {
  }

  /**
   A datagram from a client, the upstream socket that would be created for it, if creating one
   succeeds, and whether epoll would take it.
   */
  datatype Datagram = Datagram(addr: SockAddr, sock: Option<nat>, added: bool)

  /** What a datagram does to the associations: at most one a client, and none without a registered socket. */
  function Received1(model: map<Client, Assoc>, d: Datagram, now: nat): map<Client, Assoc> {
    var c := ClientOf(d.addr);
    if c in model then model[c := model[c].(lastAct := now)]
    else if d.sock.Some? && d.added then model[c := Assoc(d.addr, StorageToNet(d.addr), d.sock.value, now)]
    else model
  }

  /**
   A client that is heard from has an association if it had one or a registered socket could be made
   for it; that association keeps its socket and its address, and carries the time.  Nobody else is affected.
   */
  lemma ReceivedMeans(model: map<Client, Assoc>, d: Datagram, now: nat)
    ensures var t, c := Received1(model, d, now), ClientOf(d.addr);
            && (c in t <==> c in model || (d.sock.Some? && d.added))
            && (c in t ==>
                  && t[c].lastAct == now
                  && if c in model then t[c].upFd == model[c].upFd && t[c].addr == model[c].addr
                     else t[c].upFd == d.sock.value && t[c].addr == d.addr)
            && forall x :: x != c ==> (x in t <==> x in model) && (x in t ==> t[x] == model[x])
  {
  }

  lemma RecentMeans(model: map<Client, Assoc>, now: nat, timeout: nat)
    ensures var t := Recent(model, now, timeout);
            forall c :: (c in t <==> c in model && now <= model[c].lastAct + timeout) && (c in t ==> t[c] == model[c])
  {
  }

  /** A client that has just been heard from expires exactly when it stays silent beyond the timeout. */
  lemma HeardStays(model: map<Client, Assoc>, d: Datagram, now: nat, later: nat, timeout: nat)
    requires ClientOf(d.addr) in Received1(model, d, now)
    ensures ClientOf(d.addr) in Recent(Received1(model, d, now), later, timeout) <==> later <= now + timeout
  {
  }

  function Received(model: map<Client, Assoc>, batch: seq<Datagram>, now: nat): map<Client, Assoc> {
    if batch == [] then model
    else Received1(Received(model, batch[..|batch| - 1], now), batch[|batch| - 1], now)
  }

  predicate Idle(a: Assoc, now: nat, timeout: nat) {
    SatSub(now, a.lastAct) > timeout
  }

  /** The associations that are not idle beyond the timeout. */
  function Recent(model: map<Client, Assoc>, now: nat, timeout: nat): map<Client, Assoc> {
    map c | c in model && !Idle(model[c], now, timeout) :: model[c]
  }

  /** Clients and occupied slots are in bijection, and the hash map is its keyed part. */
  ghost predicate Bijective(byNet: map<NetAddr, nat>, slots: seq<Option<Assoc>>,
                            model: map<Client, Assoc>, home: map<Client, nat>) {
    && (forall i :: 0 <= i < |slots| && slots[i].Some? ==>
          && slots[i].value.net == StorageToNet(slots[i].value.addr)
          && ClientOf(slots[i].value.addr) in home && home[ClientOf(slots[i].value.addr)] == i)
    && model.Keys == home.Keys
    && (forall c :: c in home ==>
          home[c] < |slots| && slots[home[c]] == Some(model[c]) && ClientOf(model[c].addr) == c)
    && (forall n :: n in byNet <==> ByNet(n) in home)
    && (forall n :: n in byNet ==> byNet[n] == home[ByNet(n)])
  }

  lemma BijectiveWithout(byNet: map<NetAddr, nat>, slots: seq<Option<Assoc>>,
                         model: map<Client, Assoc>, home: map<Client, nat>, i: nat)
    requires Bijective(byNet, slots, model, home) && i < |slots| && slots[i].Some?
    ensures var c := ClientOf(slots[i].value.addr);
            Bijective(if c.ByNet? then byNet - {c.net} else byNet, slots[i := None], model - {c}, home - {c})
  {
    var c0 := ClientOf(slots[i].value.addr);
    assert (model - {c0}).Keys == (home - {c0}).Keys;
    forall c | c in home && c != c0
      ensures home[c] != i
    {
      assert slots[home[c]] == Some(model[c]);
    }
  }

  lemma BijectiveWith(byNet: map<NetAddr, nat>, slots: seq<Option<Assoc>>,
                      model: map<Client, Assoc>, home: map<Client, nat>, i: nat, a: Assoc)
    requires Bijective(byNet, slots, model, home) && i < |slots| && slots[i].None?
    requires a.net == StorageToNet(a.addr) && ClientOf(a.addr) !in home
    ensures var c := ClientOf(a.addr);
            Bijective(if c.ByNet? then byNet[c.net := i] else byNet, slots[i := Some(a)], model[c := a], home[c := i])
  {
    var c := ClientOf(a.addr);
    assert model[c := a].Keys == home[c := i].Keys;
  }

  class UdpTable {
    var byNet: map<NetAddr, nat>
    var slots: seq<Option<Assoc>>
    var free: seq<nat>
    ghost var model: map<Client, Assoc>   // the plain map that the three collections stand for
    ghost var home: map<Client, nat>      // the slot of every client

    ghost predicate Valid()
      reads this
    {
      Exact(slots, free) && Bijective(byNet, slots, model, home)
    }

    constructor ()
      ensures Valid() && model == map[] && slots == []
    {
      byNet, slots, free, home, model := map[], [], [], map[], map[];
    }

    /** Slot `i` holds an association for the client at this address. */
    ghost predicate Serves(i: nat, addr: SockAddr)
      reads this
    {
      i < |slots| && slots[i].Some? && SameClient(slots[i].value.addr, addr)
    }

    /** Clients that differ in family, address or port never share a slot, and no client has two. */
    lemma OneSlotEach(i: nat, j: nat, a: SockAddr, b: SockAddr)
      requires Valid() && Serves(i, a) && Serves(j, b)
      ensures i == j <==> SameClient(a, b)
    {
      ClientsAgree(slots[i].value.addr, a);
      ClientsAgree(slots[j].value.addr, b);
      ClientsAgree(a, b);
    }

    /** The slot of the client that sent a datagram. */
    method Find(addr: SockAddr) returns (found: Option<nat>)
      requires Valid()
      ensures found == if ClientOf(addr) in home then Some(home[ClientOf(addr)]) else None
    {
      var net := StorageToNet(addr);
      if net.Some? {
        return if net.value in byNet then Some(byNet[net.value]) else None;
      }
      for i := 0 to |slots|
        invariant forall j :: 0 <= j < i && slots[j].Some? ==> slots[j].value.addr != addr
      {
        if slots[i].Some? && slots[i].value.addr == addr {
          return Some(i);
        }
      }
      return None;
    }

    /** Stamp an occupied slot. */
    method Touch(i: nat, now: nat)
      requires Valid() && i < |slots| && slots[i].Some?
      modifies `slots, `model
      ensures Valid() && slots == old(slots)[i := Some(old(slots)[i].value.(lastAct := now))]
      ensures var c := ClientOf(old(slots)[i].value.addr);
              c in old(model) && model == old(model)[c := old(model)[c].(lastAct := now)]
    {
      var a := slots[i].value.(lastAct := now);
      slots := slots[i := Some(a)];
      model := model[ClientOf(a.addr) := a];
      forall k: nat
        ensures k in free <==> k < |slots| && slots[k].None?
      {
        assert k in free <==> k < |old(slots)| && old(slots)[k].None?;
      }
    }

    /** One datagram from a client.  The result is the socket the datagram goes to. */
    method Receive(d: Datagram, now: nat) returns (up: Option<nat>)
      requires Valid()
      modifies this
      ensures Valid() && |slots| >= |old(slots)| && model == Received1(old(model), d, now)
      ensures up == var c := ClientOf(d.addr); if c in model then Some(model[c].upFd) else None
      ensures up.Some? ==> exists i: nat :: Serves(i, d.addr) && slots[i].value.upFd == up.value
    {
      var found := Find(d.addr);
      if found.Some? {
        ClientsAgree(slots[found.value].value.addr, d.addr);
        Touch(found.value, now);
        assert Serves(found.value, d.addr);
        return Some(slots[found.value].value.upFd);
      }
      if d.sock.None? {
        return None;
      }
      var i := Reserve();
      var assoc := Assoc(d.addr, StorageToNet(d.addr), d.sock.value, now);
      if d.added {
        Occupy(i, assoc);
        ClientsAgree(d.addr, d.addr);
        assert Serves(i, d.addr);
        return d.sock;
      }
      Unreserve(i);
      return None;
    }

    /** A batch of datagrams. */
    method ReceiveAll(batch: seq<Datagram>, now: nat)
      requires Valid()
      modifies this
      ensures Valid() && |slots| >= |old(slots)| && model == Received(old(model), batch, now)
    {
      for i := 0 to |batch|
        invariant Valid() && |slots| >= |old(slots)| && model == Received(old(model), batch[..i], now)
      {
        assert batch[..i + 1][..i] == batch[..i];
        var _ := Receive(batch[i], now);
      }
      assert batch[..|batch|] == batch;
    }

    /** Slot `i` is empty but not queued; everything else is as `Valid` says. */
    ghost predicate Reserved(i: nat)
      reads this
    {
      && i !in free && i < |slots| && slots[i].None?
      && NoDup(free) && (forall k: nat :: k in free <==> k < |slots| && slots[k].None? && k != i)
      && Bijective(byNet, slots, model, home)
    }

    /** Take an empty slot off the queue, or grow the vector by one empty slot. */
    method Reserve() returns (i: nat)
      requires Valid()
      modifies `slots, `free
      ensures Reserved(i) && |slots| >= |old(slots)|
      ensures if old(free) == [] then i == |old(slots)| && free == [] else i == old(free)[0] && free == old(free)[1..]
      ensures forall k :: 0 <= k < |old(slots)| ==> slots[k] == old(slots)[k]
    {
      if free != [] {
        i := free[0];
        assert i in free;
        forall k: nat
          ensures k in free[1..] <==> k < |slots| && slots[k].None? && k != i
        {
          assert free == [i] + free[1..];
          assert k in free <==> k == i || k in free[1..];
          if k in free[1..] {
            var j :| 0 <= j < |free[1..]| && free[1..][j] == k;
            assert free[j + 1] == k && free[0] != free[j + 1];
          }
        }
        free := free[1..];
      } else {
        i := |slots|;
        forall k: nat
          ensures k in free <==> k < |slots| && slots[k].None?
        {
        }
        slots := slots + [None];
      }
    }

    method Occupy(i: nat, a: Assoc)
      requires Reserved(i) && a.net == StorageToNet(a.addr) && ClientOf(a.addr) !in home
      modifies `slots, `byNet, `home, `model
      ensures Valid() && slots == old(slots)[i := Some(a)] && model == old(model)[ClientOf(a.addr) := a]
    {
      BijectiveWith(byNet, slots, model, home, i, a);
      if a.net.Some? {
        byNet := byNet[a.net.value := i];
      }
      slots := slots[i := Some(a)];
      home, model := home[ClientOf(a.addr) := i], model[ClientOf(a.addr) := a];
    }

    method Unreserve(i: nat)
      requires Reserved(i)
      modifies `free
      ensures Valid() && free == old(free) + [i]
    {
      forall k: nat
        ensures k in free + [i] <==> k < |slots| && slots[k].None?
      {
        assert k in free + [i] <==> k in free || k == i;
      }
      free := free + [i];
    }

    /** The associations once that of slot `i`, if any, is stamped. */
    ghost function Stamped(i: nat, now: nat): map<Client, Assoc>
      requires Valid() && i < |slots|
      reads this
    {
      if slots[i].None? then model
      else var c := ClientOf(slots[i].value.addr); model[c := slots[i].value.(lastAct := now)]
    }

    /** The association in the slot carries the time, and nothing else of it or of any other changes. */
    lemma StampedMeans(i: nat, now: nat)
      requires Valid() && i < |slots|
      ensures var t := Stamped(i, now);
              && t.Keys == model.Keys
              && forall c :: c in t ==>
                   && t[c] == model[c].(lastAct := t[c].lastAct)
                   && t[c].lastAct == if slots[i] == Some(model[c]) then now else model[c].lastAct
    {
      if slots[i].Some? {
        var c := ClientOf(slots[i].value.addr);
        assert c in home && home[c] == i;
        forall d | d in model && d != c
          ensures slots[i] != Some(model[d])
        {
          assert slots[home[d]] == Some(model[d]);
        }
      }
    }

    /** An answer came back through the upstream socket of slot `i`. */
    method Answered(i: nat, now: nat)
      requires Valid() && i < |slots|
      modifies `slots, `model
      ensures Valid() && |slots| == |old(slots)| && model == old(Stamped(i, now))
    {
      if slots[i].Some? {
        Touch(i, now);
      }
    }

    method Remove(i: nat)
      requires Valid() && i < |slots| && slots[i].Some?
      modifies this
      ensures Valid() && slots == old(slots)[i := None] && free == old(free) + [i]
      ensures model == old(model) - {ClientOf(old(slots)[i].value.addr)}
      ensures home == old(home) - {ClientOf(old(slots)[i].value.addr)}
    {
      var a := slots[i].value;
      ExactAfterFree(slots, free, i);
      BijectiveWithout(byNet, slots, model, home, i);
      if a.net.Some? {
        byNet := byNet - {a.net.value};
      }
      slots, free := slots[i := None], free + [i];
      home, model := home - {ClientOf(a.addr)}, model - {ClientOf(a.addr)};
    }

    /** One slot of the expiry pass. */
    method ExpireSlot(i: nat, now: nat, timeout: nat)
      requires Valid() && i < |slots|
      modifies this
      ensures Valid() && |slots| == |old(slots)| && forall j :: i < j < |slots| ==> slots[j] == old(slots)[j]
      ensures model.Keys == set c | c in old(model) && !(old(home)[c] == i && Idle(old(model)[c], now, timeout))
      ensures forall c :: c in model ==> model[c] == old(model)[c] && home[c] == old(home)[c]
    {
      assert forall c :: c in model && home[c] == i ==> slots[i] == Some(model[c]) && ClientOf(model[c].addr) == c;
      if slots[i].Some? && Idle(slots[i].value, now, timeout) {
        Remove(i);
      }
    }

    /** The 1 Hz expiry pass. */
    method Expire(now: nat, timeout: nat)
      requires Valid()
      modifies this
      ensures Valid() && |slots| == |old(slots)|
      ensures model == Recent(old(model), now, timeout)
    {
      for i := 0 to |slots|
        invariant Valid() && |slots| == |old(slots)|
        invariant model.Keys == set c | c in old(model) && (old(home)[c] >= i || !Idle(old(model)[c], now, timeout))
        invariant forall c :: c in model ==> model[c] == old(model)[c] && home[c] == old(home)[c]
      {
        ExpireSlot(i, now, timeout);
      }
    }
  }
}

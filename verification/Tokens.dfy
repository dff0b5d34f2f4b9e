/**
 The 64-bit epoll token space of relay-rs/src/main.rs.

 Four kinds of registrant share one `u64`: the accept socket, the UDP listener, the UDP upstream
 sockets and the two ends of every TCP connection.  Words are natural numbers below 2^64; a left
 shift drops the bits above 2^64, and `Or` is the bitwise operator, so nothing here presumes that
 the three fields of a TCP token stay out of each other's way.
 */
module Tokens {
  const WORD: nat := 0x1_0000_0000_0000_0000
  const GEN_SHIFT: nat := 0x1_0000_0000_0000  // 1 << 48
  const GENERATIONS: nat := 0x1_0000
  const IDX_LIMIT: nat := 0x8000_0000_0000    // 1 << 47

  const TOKEN_ACCEPT: nat := WORD - 1
  const TOKEN_UDP: nat := WORD - 2
  const UDP_BASE: nat := 0x400_0000           // 1 << 26

  /** Who a token belongs to. */
  datatype Target =
    | Accept
    | UdpListen
    | UdpUpstream(slot: nat)
    | Tcp(gen: nat, idx: nat, remote: bool)

  /** Bitwise or. */
  function Or(a: nat, b: nat): nat
    decreases a + b
  {
    if a == 0 && b == 0 then 0
    else 2 * Or(a / 2, b / 2) + (if a % 2 == 1 || b % 2 == 1 then 1 else 0)
  }

  function Encode(gen: nat, idx: nat, side: nat): nat {
    Or(Or((gen * GEN_SHIFT) % WORD, (idx * 2) % WORD), side)
  }

  function Decode(token: nat): (nat, nat, bool) {
    (token / GEN_SHIFT % GENERATIONS, token / 2 % IDX_LIMIT, token % 2 != 0)
  }

  function UdpToken(slot: nat): nat {
    (UDP_BASE + slot) % WORD
  }

  /** The chain of tests at the top of the event loop, `udpSlots` being `udp_slots.len()`. */
  function Route(token: nat, udpSlots: nat): Target {
    if token == TOKEN_ACCEPT then Accept
    else if token == TOKEN_UDP then UdpListen
    else if token >= UDP_BASE && token - UDP_BASE < udpSlots then UdpUpstream(token - UDP_BASE)
    else var (gen, idx, remote) := Decode(token); Tcp(gen, idx, remote)
  }

  /** A left shift that loses no bit. */
  function Shl(a: nat, k: nat): nat {
    if k == 0 then a else 2 * Shl(a, k - 1)
  }

  lemma {:induction false} OrZero(a: nat)
    ensures Or(a, 0) == a
  {
    if a > 0 {
      OrZero(a / 2);
    }
  }

  lemma OrDouble(high: nat, b: nat)
    ensures Or(2 * high, b) == 2 * Or(high, b / 2) + b % 2
  {
  }

  /** Fields that do not overlap are joined by addition. */
  lemma {:induction false} OrDisjoint(a: nat, b: nat, k: nat)
    requires b < Shl(1, k)
    ensures Or(Shl(a, k), b) == Shl(a, k) + b
  {
    if k == 0 {
      OrZero(a);
    } else {
      OrDisjoint(a, b / 2, k - 1);
      OrDouble(Shl(a, k - 1), b);
    }
  }

  lemma OrEven(high: nat, bit: nat)
    requires bit < 2
    ensures Or(high * 2, bit) == high * 2 + bit
  {
    OrZero(high);
    OrDouble(high, bit);
  }

  lemma {:induction false} ShlTwice(a: nat, j: nat, k: nat)
    ensures Shl(Shl(a, j), k) == Shl(a, j + k)
  {
    if k > 0 {
      ShlTwice(a, j, k - 1);
    }
  }

  lemma Shl4(a: nat)
    ensures Shl(a, 4) == 16 * a
  {
    assert Shl(a, 1) == 2 * a;
    assert Shl(a, 2) == 4 * a;
    assert Shl(a, 3) == 8 * a;
  }

  lemma Shl16(a: nat)
    ensures Shl(a, 16) == 0x1_0000 * a
  {
    Shl4(a);
    Shl4(16 * a);
    Shl4(256 * a);
    Shl4(4096 * a);
    ShlTwice(a, 4, 4);
    ShlTwice(a, 8, 4);
    ShlTwice(a, 12, 4);
  }

  lemma Shl48(a: nat)
    ensures Shl(a, 48) == a * GEN_SHIFT
  {
    Shl16(a);
    Shl16(0x1_0000 * a);
    Shl16(0x1_0000_0000 * a);
    ShlTwice(a, 16, 16);
    ShlTwice(a, 32, 16);
  }

  lemma HighFields(gen: nat, idx: nat)
    requires gen < GENERATIONS && idx < IDX_LIMIT
    ensures Or((gen * GEN_SHIFT) % WORD, (idx * 2) % WORD) == (gen * IDX_LIMIT + idx) * 2
  {
    var g, i := gen * GEN_SHIFT, idx * 2;
    assert g % WORD == g && i % WORD == i;
    JoinAbove48(gen, i);
  }

  lemma JoinAbove48(high: nat, low: nat)
    requires low < GEN_SHIFT
    ensures Or(high * GEN_SHIFT, low) == high * GEN_SHIFT + low
  {
    Shl48(high);
    Shl48(1);
    OrDisjoint(high, low, 48);
  }

  /** The layout [gen:16][idx:47][side:1] of a token whose index fits its field. */
  lemma EncodeLayout(gen: nat, idx: nat, side: nat)
    requires gen < GENERATIONS && idx < IDX_LIMIT && side < 2
    ensures Encode(gen, idx, side) == gen * GEN_SHIFT + idx * 2 + side
  {
    HighFields(gen, idx);
    OrEven(gen * IDX_LIMIT + idx, side);
  }

  /** Decoding undoes encoding exactly for the indices that fit 47 bits. */
  lemma DecodeEncode(gen: nat, idx: nat, side: nat)
    requires gen < GENERATIONS && side < 2
    ensures Decode(Encode(gen, idx, side)) == (gen, idx, side == 1) <==> idx < IDX_LIMIT
  {
    var token := Encode(gen, idx, side);
    assert Decode(token).1 < IDX_LIMIT;
    if idx < IDX_LIMIT {
      EncodeLayout(gen, idx, side);
      var low := idx * 2 + side;
      assert low < GEN_SHIFT && low / 2 == idx && low % 2 == side;
      SplitWord(gen, low, token);
    }
  }

  lemma SplitWord(gen: nat, low: nat, token: nat)
    requires gen < GENERATIONS && low < GEN_SHIFT && token == gen * GEN_SHIFT + low
    ensures Decode(token) == (gen, low / 2, low % 2 != 0)
  {
    assert token / GEN_SHIFT == gen;
    assert token / 2 == gen * IDX_LIMIT + low / 2 && token % 2 == low % 2;
  }

  /** The special sockets and every UDP upstream socket are routed to themselves. */
  lemma SpecialTokensRouted(slot: nat, udpSlots: nat)
    requires slot < udpSlots <= WORD - 2 - UDP_BASE
    ensures Route(TOKEN_ACCEPT, udpSlots) == Accept
    ensures Route(TOKEN_UDP, udpSlots) == UdpListen
    ensures Route(UdpToken(slot), udpSlots) == UdpUpstream(slot)
  {
  }

  /**
   A TCP slot is routed to itself in every generation exactly when its index is below 2^25 or no
   UDP slot sits at the number its generation-zero tokens happen to spell.
   */
  lemma TcpTokensRouted(idx: nat, udpSlots: nat)
    requires idx < IDX_LIMIT - 1
    requires udpSlots <= GEN_SHIFT - UDP_BASE
    ensures (forall gen: nat, side: nat | gen < GENERATIONS && side < 2 ::
               Route(Encode(gen, idx, side), udpSlots) == Tcp(gen, idx, side == 1))
            <==> (idx * 2 < UDP_BASE || idx * 2 - UDP_BASE >= udpSlots)
  {
    if idx * 2 < UDP_BASE || idx * 2 - UDP_BASE >= udpSlots {
      forall gen: nat, side: nat | gen < GENERATIONS && side < 2
        ensures Route(Encode(gen, idx, side), udpSlots) == Tcp(gen, idx, side == 1)
      {
        TcpTokenRouted(gen, idx, side, udpSlots);
      }
    } else {
      EncodeLayout(0, idx, 0);
      assert Route(Encode(0, idx, 0), udpSlots) == UdpUpstream(idx * 2 - UDP_BASE);
    }
  }

  lemma TcpTokenRouted(gen: nat, idx: nat, side: nat, udpSlots: nat)
    requires gen < GENERATIONS && side < 2 && idx < IDX_LIMIT - 1 && udpSlots <= GEN_SHIFT - UDP_BASE
    requires idx * 2 < UDP_BASE || idx * 2 - UDP_BASE >= udpSlots
    ensures Route(Encode(gen, idx, side), udpSlots) == Tcp(gen, idx, side == 1)
  {
    EncodeLayout(gen, idx, side);
    DecodeEncode(gen, idx, side);
    var token := Encode(gen, idx, side);
    assert token < TOKEN_UDP;
    assert gen > 0 ==> token >= GEN_SHIFT;
  }

  /** Within the slab's range, tokens of different slots, generations or sides never collide. */
  lemma TokensDistinct(g1: nat, i1: nat, s1: nat, g2: nat, i2: nat, s2: nat)
    requires g1 < GENERATIONS && i1 < IDX_LIMIT && s1 < 2
    requires g2 < GENERATIONS && i2 < IDX_LIMIT && s2 < 2
    ensures Encode(g1, i1, s1) == Encode(g2, i2, s2) <==> (g1, i1, s1) == (g2, i2, s2)
  {
    DecodeEncode(g1, i1, s1);
    DecodeEncode(g2, i2, s2);
  }
}

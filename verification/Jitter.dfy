/** The time-to-live jitter of relay-rs/src/pool.rs: an xorshift generator and a bounded spread. */
module Jitter {
  import opened Wrappers

  const WORD: nat := 0x1_0000_0000_0000_0000

  /** A `u64` as its bits, the least significant first. */
  type Word = w: seq<bool> | |w| == 64 witness seq(64, _ => false)

  const ZERO: Word := seq(64, _ => false)

  /** `x ^ (x << k)` and `x ^ (x >> k)`: each bit meets the one k places below or above it. */
  function Left(x: Word, k: nat): (y: Word) {
    seq(64, i requires 0 <= i < 64 => x[i] != (k <= i && x[i - k]))
  }

  function Right(x: Word, k: nat): (y: Word) {
    seq(64, i requires 0 <= i < 64 => x[i] != (i + k < 64 && x[i + k]))
  }

  /** `next_rng`: three xorshifts. */
  function NextRng(x: Word): Word {
    Left(Right(Left(x, 13), 7), 17)
  }

  /** Each shift undone in turn: repeating one doubles its distance, until every bit falls out. */
  function PrevRng(y: Word): Word {
    var b := Left(Left(y, 17), 34);
    var a := Right(Right(Right(Right(b, 7), 14), 28), 56);
    Left(Left(Left(a, 13), 26), 52)
  }

  /** The numeric value. */
  function Value(w: seq<bool>): nat {
    if w == [] then 0 else (if w[0] then 1 else 0) + 2 * Value(w[1..])
  }

  /** Different words have different values. */
  lemma {:induction false} ValueExact(a: seq<bool>, b: seq<bool>)
    requires |a| == |b|
    ensures Value(a) == Value(b) <==> a == b
  {
    if a != [] {
      ValueExact(a[1..], b[1..]);
      assert a == [a[0]] + a[1..] && b == [b[0]] + b[1..];
    }
  }

  /** Where one bit goes: the shifts are by 13, 7 and 17. */
  lemma RngOfOne(x: Word, i: nat)
    requires (forall j :: 0 <= j < 64 ==> (x[j] <==> j == 0)) && i < 64
    ensures NextRng(x)[i] <==> i in {0, 6, 13, 17, 23, 30}
  {
    var a := Left(x, 13);
    assert forall j :: 0 <= j < 64 ==> (a[j] <==> j == 0 || j == 13);
    var b := Right(a, 7);
    assert forall j :: 0 <= j < 64 ==> (b[j] <==> j == 0 || j == 6 || j == 13);
  }

  lemma Twice(x: Word, k: nat)
    ensures Left(Left(x, k), k) == Left(x, 2 * k) && Right(Right(x, k), k) == Right(x, 2 * k)
    ensures k >= 64 ==> Left(x, k) == x && Right(x, k) == x
  {
  }

  lemma Commute(x: Word, j: nat, k: nat)
    ensures Left(Left(x, j), k) == Left(Left(x, k), j) && Right(Right(x, j), k) == Right(Right(x, k), j)
  {
  }

  lemma LeftUndone(x: Word)
    ensures Left(Left(Left(x, 17), 17), 34) == x && Left(Left(Left(x, 17), 34), 17) == x
    ensures Left(Left(Left(Left(x, 13), 13), 26), 52) == x && Left(Left(Left(Left(x, 13), 26), 52), 13) == x
  {
    Twice(x, 17);
    Twice(x, 34);
    Twice(x, 68);
    Commute(Left(x, 17), 17, 34);
    Twice(x, 13);
    Twice(x, 26);
    Twice(x, 52);
    Twice(x, 104);
    Commute(Left(Left(x, 13), 26), 13, 52);
    Commute(Left(x, 13), 13, 26);
  }

  lemma RightUndone(x: Word)
    ensures Right(Right(Right(Right(Right(x, 7), 7), 14), 28), 56) == x
    ensures Right(Right(Right(Right(Right(x, 7), 14), 28), 56), 7) == x
  {
    Twice(x, 7);
    Twice(x, 14);
    Twice(x, 28);
    Twice(x, 56);
    Twice(x, 112);
    Commute(Right(Right(Right(x, 7), 14), 28), 7, 56);
    Commute(Right(Right(x, 7), 14), 7, 28);
    Commute(Right(x, 7), 7, 14);
  }

  /** The generator permutes the 64-bit words, so no two seeds ever merge. */
  lemma RngBijective(x: Word)
    ensures PrevRng(NextRng(x)) == x && NextRng(PrevRng(x)) == x
  {
    LeftUndone(x);
    RightUndone(Left(x, 13));
    LeftUndone(Right(Left(x, 13), 7));
    var b := Left(Left(x, 17), 34);
    RightUndone(b);
    LeftUndone(Right(Right(Right(Right(b, 7), 14), 28), 56));
  }

  lemma ZeroFixed(k: nat)
    ensures Left(ZERO, k) == ZERO == Right(ZERO, k)
  {
  }

  /** A nonzero seed never reaches the fixed point zero. */
  lemma RngNonzero(x: Word)
    ensures NextRng(x) == ZERO <==> x == ZERO
  {
    ZeroFixed(13);
    ZeroFixed(7);
    ZeroFixed(17);
    assert NextRng(ZERO) == ZERO;
    RngBijective(x);
    RngBijective(ZERO);
  }

  /** `jittered_ttl` on `u64`s, `word` being the next random word. */
  function JitteredTtl(base: nat, pct: nat, word: nat): nat {
    var range := base * pct % WORD / 50 + 1;
    (SatSub(base, range / 2) + word % range) % WORD
  }

  /** At most pct percent above the base, and at least pct percent below it, rounded outwards. */
  function TtlMax(base: nat, pct: nat): nat {
    base + base * pct / 100
  }

  function TtlMin(base: nat, pct: nat): int {
    base - (base * pct + 99) / 100
  }

  /** The time-to-live as a function of the product the code computes. */
  function Spread(base: nat, x: nat, word: nat): nat {
    SatSub(base, (x / 50 + 1) / 2) + word % (x / 50 + 1)
  }

  /** A word picks a point between the two ends, both of which are reached. */
  lemma SpreadBounds(base: nat, x: nat, word: nat)
    requires 10000 <= base && x <= 50 * base
    ensures (x / 50 + 1) / 2 <= base   // the subtraction never saturates
    ensures base - (x + 99) / 100 <= Spread(base, x, word) <= base + x / 100
    ensures Spread(base, x, x / 50) == base + x / 100
  {
    var q := x / 50;
    assert x / 100 == q / 2 && (q + 1) / 2 <= (x + 99) / 100;
    var r := word % (q + 1);
    assert 0 <= r <= q;
    assert q % (q + 1) == q;
  }

  /**
   Every word gives a time-to-live within the percentage of the base, exactly when the top of the
   spread fits 64 bits; beyond that the sum wraps to almost nothing.
   */
  lemma TtlBounds(base: nat, pct: nat)
    requires 10000 <= base < WORD && pct <= 50
    ensures base + (base * pct % WORD) / 100 < WORD
            <==> forall word: nat | word < WORD ::
                   TtlMin(base, pct) <= JitteredTtl(base, pct, word) <= TtlMax(base, pct)
  {
    var x := base * pct;
    Percent(base, pct);
    if base + (x % WORD) / 100 < WORD {
      forall word: nat | word < WORD
        ensures TtlMin(base, pct) <= JitteredTtl(base, pct, word) <= TtlMax(base, pct)
      {
        TtlWithin(base, pct, word);
      }
    } else {
      Wraps(base, x);
      assert JitteredTtl(base, pct, (x % WORD) / 50) < TtlMin(base, pct);
    }
  }

  lemma TtlWithin(base: nat, pct: nat, word: nat)
    requires 10000 <= base < WORD && pct <= 50 && base + (base * pct % WORD) / 100 < WORD
    ensures TtlMin(base, pct) <= JitteredTtl(base, pct, word) <= TtlMax(base, pct)
  {
    Percent(base, pct);
    Within(base, base * pct, word);
  }

  /** The times-to-live that some word gives: every whole number of the spread, and no other. */
  lemma TtlReaches(base: nat, pct: nat, t: nat)
    requires 10000 <= base < WORD && pct <= 50 && base + (base * pct % WORD) / 100 < WORD
    ensures var x := base * pct % WORD;
            (exists word: nat :: word < WORD && JitteredTtl(base, pct, word) == t)
            <==> base - (x / 50 + 1) / 2 <= t <= base + x / 100
  {
    Percent(base, pct);
    Reaches(base, pct, base * pct % WORD, t);
  }

  lemma Reaches(base: nat, pct: nat, x: nat, t: nat)
    requires 10000 <= base < WORD && x <= 50 * base && base + x / 100 < WORD
    requires forall word: nat :: JitteredTtl(base, pct, word) == Spread(base, x, word) % WORD
    ensures (exists word: nat :: word < WORD && JitteredTtl(base, pct, word) == t)
            <==> base - (x / 50 + 1) / 2 <= t <= base + x / 100
  {
    var low := base - (x / 50 + 1) / 2;
    forall word: nat | word < WORD
      ensures low <= JitteredTtl(base, pct, word) <= base + x / 100
    {
      Drawn(base, x, word);
    }
    if low <= t <= base + x / 100 {
      Drawn(base, x, t - low);
      assert JitteredTtl(base, pct, t - low) == t;
    }
  }

  lemma Drawn(base: nat, x: nat, word: nat)
    requires 10000 <= base < WORD && x <= 50 * base && base + x / 100 < WORD
    ensures var low, t := base - (x / 50 + 1) / 2, Spread(base, x, word) % WORD;
            low <= t <= base + x / 100 && (word <= base + x / 100 - low ==> t == low + word)
  {
    SpreadBounds(base, x, word);
    var q := x / 50;
    Halves(x, q);
    Residue(word, q);
    var t := Spread(base, x, word);
    assert t == base - (q + 1) / 2 + word % (q + 1);
    assert t % WORD == t;
  }

  lemma Halves(x: nat, q: nat)
    requires q == x / 50
    ensures x / 100 + (q + 1) / 2 == q
  {
  }

  lemma Residue(word: nat, q: nat)
    ensures 0 <= word % (q + 1) <= q && (word <= q ==> word % (q + 1) == word)
  {
  }

  lemma Within(base: nat, x: nat, word: nat)
    requires 10000 <= base < WORD && x <= 50 * base && base + (x % WORD) / 100 < WORD
    ensures base - (x + 99) / 100 <= Spread(base, x % WORD, word) % WORD <= base + x / 100
  {
    var y := x % WORD;
    assert y <= x;
    SpreadBounds(base, y, word);
    var t := Spread(base, y, word);
    assert t % WORD == t;
  }

  lemma Wraps(base: nat, x: nat)
    requires 10000 <= base < WORD && x <= 50 * base && base + (x % WORD) / 100 >= WORD
    ensures Spread(base, x % WORD, (x % WORD) / 50) % WORD < base - (x + 99) / 100
  {
    var y := x % WORD;
    assert y <= x;
    SpreadBounds(base, y, 0);
    var t := base + y / 100;
    assert t < 2 * WORD;
    assert t % WORD == t - WORD;
  }

  lemma Percent(base: nat, pct: nat)
    requires pct <= 50
    ensures base * pct <= 50 * base
  {
  }
}

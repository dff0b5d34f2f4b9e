/**
 Why a stale event never reaches the wrong connection.

 `held[i]` is the number of the allocation that slot `i` holds, counting every `Conn` ever built;
 `issued[n]` is the slot that allocation `n` was given.  The program keeps only the count modulo 65536.
 */
module Generations {
  import opened Wrappers
  import opened Tokens

  type Held = seq<Option<nat>>

  /** A slot holds the latest of the allocations that were given that slot. */
  ghost predicate Recorded(held: Held, issued: seq<nat>) {
    && (forall n :: 0 <= n < |issued| ==> issued[n] < |held|)
    && (forall i :: 0 <= i < |held| && held[i].Some? ==>
          held[i].value < |issued| && issued[held[i].value] == i)
    && (forall i, n :: 0 <= i < |held| && held[i].Some? && held[i].value < n < |issued| ==> issued[n] != i)
  }

  /** The holders after connection `n` is put into slot `i`, an empty one or the next new one. */
  function Place(held: Held, i: nat, n: nat): Held
    requires i <= |held|
  {
    if i < |held| then held[i := Some(n)] else held + [Some(n)]
  }

  lemma RecordedAfterPlace(held: Held, issued: seq<nat>, i: nat)
    requires Recorded(held, issued) && i <= |held| && (i < |held| ==> held[i].None?)
    ensures Recorded(Place(held, i, |issued|), issued + [i])
  {
    var held', issued' := Place(held, i, |issued|), issued + [i];
    forall k, n | 0 <= k < |held'| && held'[k].Some? && held'[k].value < n < |issued'|
      ensures issued'[n] != k
    {
      if n == |issued| {
        assert k != i;
      } else {
        assert k < |held| && held[k].Some? && held[k].value < n < |issued|;
      }
    }
  }

  /** The slot an event is delivered to, if any. */
  function Lookup(held: Held, token: nat): Option<nat> {
    var (gen, idx, _) := Decode(token);
    if idx < |held| && held[idx].Some? && held[idx].value % GENERATIONS == gen then Some(idx) else None
  }

  /** A token of allocation `n` is accepted iff its slot holds an allocation congruent to `n`. */
  lemma AcceptedIffCongruent(held: Held, n: nat, idx: nat, side: nat)
    requires idx < IDX_LIMIT && side < 2
    ensures var found := Lookup(held, Encode(n % GENERATIONS, idx, side));
            && (found == None || found == Some(idx))
            && (found.Some? <==>
                  idx < |held| && held[idx].Some? && held[idx].value % GENERATIONS == n % GENERATIONS)
  {
    DecodeEncode(n % GENERATIONS, idx, side);
  }

  /**
   As long as no more than 65536 connections have been built since and including allocation `n`, an
   event carrying its token reaches that very allocation or nobody.
   */
  lemma StaleEventsDie(held: Held, issued: seq<nat>, n: nat, side: nat)
    requires Recorded(held, issued) && n < |issued| && side < 2
    requires |held| <= IDX_LIMIT
    requires |issued| - n <= GENERATIONS
    ensures Lookup(held, Encode(n % GENERATIONS, issued[n], side)) ==
            if held[issued[n]] == Some(n) then Some(issued[n]) else None
  {
    var i := issued[n];
    AcceptedIffCongruent(held, n, i, side);
    if held[i].Some? && held[i].value % GENERATIONS == n % GENERATIONS {
      var m := held[i].value;
      assert m >= n;
      assert m - n < GENERATIONS;
    }
  }

  /** One allocation later the count has come round, and a stale token is taken for a fresh one. */
  lemma StaleEventsReturn(issued: seq<nat>)
    requires |issued| == GENERATIONS + 1 && forall n :: 0 <= n < |issued| ==> issued[n] == 0
    ensures Recorded([Some(GENERATIONS)], issued)
    ensures Lookup([Some(GENERATIONS)], Encode(0, issued[0], 0)) == Some(0)
  {
    AcceptedIffCongruent([Some(GENERATIONS)], 0, 0, 0);
  }

  /** Tokens of two live connections never coincide, whatever their generations. */
  lemma LiveTokensDistinct(held: Held, i: nat, j: nat, s: nat, t: nat)
    requires |held| <= IDX_LIMIT && i < |held| && j < |held| && s < 2 && t < 2
    requires held[i].Some? && held[j].Some?
    ensures Encode(held[i].value % GENERATIONS, i, s) == Encode(held[j].value % GENERATIONS, j, t)
            <==> i == j && s == t
  {
    TokensDistinct(held[i].value % GENERATIONS, i, s, held[j].value % GENERATIONS, j, t);
  }
}

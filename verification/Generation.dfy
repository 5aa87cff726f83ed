/** Slot generations: a fixed-width counter that is bumped when a slot is
    recycled and skips zero (`wrapping_add(1).max(1)`), used by the connection
    slab (16 bits) and the handle slab (32 bits).
 */
module Generation {

  const BITS16 := 0x1_0000
  const BITS32 := 0x1_0000_0000

  predicate Width(m: nat) { m == BITS16 || m == BITS32 }

  /** The next generation in a counter of `m` values. */
  function Next(g: nat, m: nat): (r: nat)
    requires Width(m)
    ensures 1 <= r < m
  {
    if g + 1 >= m then 1 else g + 1
  }

  /** The generation after `n` recycles, starting from `g`. */
  function After(g: nat, n: nat, m: nat): nat
    requires Width(m)
  {
    if n == 0 then g else Next(After(g, n - 1, m), m)
  }

  lemma {:induction false} AfterClosed16(g: nat, n: nat)
    requires 1 <= g < BITS16
    ensures After(g, n, BITS16) == 1 + (g - 1 + n) % 0xFFFF
  {
    if n > 0 {
      AfterClosed16(g, n - 1);
    }
  }

  lemma {:induction false} AfterClosed32(g: nat, n: nat)
    requires 1 <= g < BITS32
    ensures After(g, n, BITS32) == 1 + (g - 1 + n) % 0xFFFF_FFFF
  {
    if n > 0 {
      AfterClosed32(g, n - 1);
    }
  }

  lemma {:induction false} AfterAdds(g: nat, a: nat, b: nat, m: nat)
    requires Width(m)
    ensures After(g, a + b, m) == After(After(g, a, m), b, m)
  {
    if b > 0 {
      AfterAdds(g, a, b - 1, m);
    }
  }

  /** Generations cycle through the non-zero values: a slot shows an old
      generation again exactly after a whole number of cycles. */
  lemma ReuseIff16(g: nat, n: nat)
    requires 1 <= g < BITS16
    ensures After(g, n, BITS16) == g <==> n % 0xFFFF == 0
  {
    AfterClosed16(g, n);
  }

  lemma ReuseIff32(g: nat, n: nat)
    requires 1 <= g < BITS32
    ensures After(g, n, BITS32) == g <==> n % 0xFFFF_FFFF == 0
  {
    AfterClosed32(g, n);
  }

  /** Two occupants of one connection slot carry the same generation exactly when
      a whole number of cycles lies between them. */
  lemma SameIff16(a: nat, b: nat)
    requires a <= b
    ensures After(1, a, BITS16) == After(1, b, BITS16) <==> (b - a) % 0xFFFF == 0
  {
    AfterAdds(1, a, b - a, BITS16);
    ReuseIff16(After(1, a, BITS16), b - a);
  }

  lemma SameIff32(a: nat, b: nat)
    requires a <= b
    ensures After(1, a, BITS32) == After(1, b, BITS32) <==> (b - a) % 0xFFFF_FFFF == 0
  {
    AfterAdds(1, a, b - a, BITS32);
    ReuseIff32(After(1, a, BITS32), b - a);
  }
}

/** Sizes from kernel/param.h, and small facts that several modules use. */
module Common {
  const MAXARG: nat := 32
  const MAXOPBLOCKS: nat := 10
  const LOGSIZE: nat := 3 * MAXOPBLOCKS
  const NBUF: nat := 3 * MAXOPBLOCKS

  const UINT_LIMIT: nat := 0x1_0000_0000     // unsigned numbers are 32 bits wide

  function Min(a: nat, b: nat): nat {
    if a < b then a else b
  }

  /** The `n` numbers from `x` on. */
  ghost function Range(x: nat, n: nat): set<nat>
    decreases n
  {
    if n == 0 then {} else Range(x, n - 1) + {x + n - 1}
  }

  lemma {:induction false} RangeCount(x: nat, n: nat)
    ensures |Range(x, n)| == n && forall b: nat :: b in Range(x, n) <==> x <= b < x + n
    decreases n
  {
    if n > 0 {
      RangeCount(x, n - 1);
    }
  }

  lemma {:induction false} SubsetCount<T>(a: set<T>, b: set<T>)
    requires a <= b
    ensures |a| <= |b|
  {
    assert b == a + (b - a);
  }
}

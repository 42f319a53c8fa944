/** The mortality period of transactions that the runtime creates itself. */
module Mortality {
  import opened Prelude

  const U32_MAX: nat := 0xFFFF_FFFF
  const BLOCK_HASH_COUNT: nat := 2400

  ghost predicate IsPowerOfTwo(p: nat) {
    exists k: nat :: p == Pow2(k)
  }

  function Pow2(k: nat): (p: nat)
    ensures p > 0
  {
    if k == 0 then 1 else 2 * Pow2(k - 1)
  }

  /** The least power of two from `p` upwards that is at least `c`. */
  function RoundUp(c: nat, p: nat): nat
    requires p > 0
    decreases c - p
  {
    if p >= c then p else RoundUp(c, 2 * p)
  }

  /** The least power of two that is at least `c`, if it fits in 32 bits. */
  function CheckedNextPowerOfTwo(c: nat): Option<nat> {
    var p := RoundUp(c, 1);
    if p > U32_MAX then None else Some(p)
  }

  function Period(blockHashCount: nat): nat {
    match CheckedNextPowerOfTwo(blockHashCount)
    case Some(c) => c / 2
    case None => 2
  }

  lemma {:induction false} RoundUpExact(c: nat, p: nat, k: nat)
    requires p == Pow2(k)
    ensures exists j: nat :: RoundUp(c, p) == Pow2(j)
    ensures RoundUp(c, p) >= c
    ensures RoundUp(c, p) == p || (RoundUp(c, p) < 2 * c && exists j: nat :: RoundUp(c, p) == 2 * Pow2(j))
    decreases c - p
  {
    if p < c {
      assert 2 * p == Pow2(k + 1);
      RoundUpExact(c, 2 * p, k + 1);
    }
  }

  lemma {:induction false} Pow2Grows(i: nat, j: nat)
    requires i < j
    ensures 2 * Pow2(i) <= Pow2(j)
    decreases j
  {
    if i < j - 1 {
      Pow2Grows(i, j - 1);
    }
  }

  /** A power of two that exceeds 2^31 does not fit in 32 bits; smaller ones do. */
  lemma PowersInU32(k: nat)
    ensures Pow2(k) <= U32_MAX <==> k <= 31
    ensures k > 31 ==> Pow2(k) > U32_MAX
    ensures Pow2(31) == 0x8000_0000
  {
    assert Pow2(8) == 256;
    assert Pow2(16) == 65536 by { assert Pow2(12) == 4096; }
    assert Pow2(24) == 0x100_0000 by { assert Pow2(20) == 0x10_0000; }
    assert Pow2(31) == 0x8000_0000 by { assert Pow2(28) == 0x1000_0000; }
    if k < 31 {
      Pow2Grows(k, 31);
    }
    if k > 31 {
      Pow2Grows(31, k);
    }
  }

  /**
   * Main result, for every 32-bit window: the period is a power of two exactly from window 2 on, and then it is
   * below the window; it is the largest such power exactly up to window 2^31, beyond which the fallback 2 applies.
   */
  lemma PeriodExact(window: nat)
    requires window <= U32_MAX
    ensures IsPowerOfTwo(Period(window)) <==> window >= 2
    ensures window >= 2 ==> Period(window) < window
    ensures window >= 2 ==>
              ((forall k: nat :: Pow2(k) < window ==> Pow2(k) <= Period(window)) <==> window <= 0x8000_0000)
    ensures 2 <= window <= 0x8000_0000 ==> Period(window) < window <= 2 * Period(window)
    ensures window > 0x8000_0000 ==> Period(window) == 2
    ensures window < 2 ==> Period(window) == 0
  {
    RoundUpExact(window, 1, 0);
    var k: nat :| RoundUp(window, 1) == Pow2(k);
    PowersInU32(k);
    if window >= 2 {
      if window <= 0x8000_0000 {
        assert Pow2(k) == 2 * Pow2(k - 1);
        assert Period(window) == Pow2(k - 1);
        forall j: nat | Pow2(j) < window ensures Pow2(j) <= Period(window) {
          if j > k - 1 {
            Pow2Grows(k - 1, j);
          } else if j < k - 1 {
            Pow2Grows(j, k - 1);
          }
        }
      } else {
        PowersInU32(31);
        assert Pow2(31) < window;
        if k < 31 {
          Pow2Grows(k, 31);
        }
        assert Period(window) == 2;
        assert Pow2(1) == 2;
      }
    } else {
      assert Period(window) == 0;
    }
  }

  /** A transaction that is valid for one period from block `current` on meets only blocks less than a window away. */
  lemma HashOutlivesTransaction(window: nat, current: nat, blk: nat)
    requires 2 <= window <= U32_MAX
    requires current <= blk < current + Period(window)
    ensures blk - window < current
  {
    PeriodExact(window);
  }

  /** Each power of two is the period of the windows above it, up to and including the next power. */
  lemma PeriodValue(window: nat, j: nat)
    requires 2 <= window <= 0x8000_0000
    ensures Period(window) == Pow2(j) <==> Pow2(j) < window <= 2 * Pow2(j)
  {
    PeriodExact(window);
    var k: nat :| Period(window) == Pow2(k);
    if k < j {
      Pow2Grows(k, j);
    }
    if j < k {
      Pow2Grows(j, k);
    }
  }

  /** The configured window of 2400 blocks. */
  lemma ConfiguredPeriod()
    ensures Period(BLOCK_HASH_COUNT) == 2048
  {
    assert Pow2(11) == 2048;
    PeriodValue(BLOCK_HASH_COUNT, 11);
  }
}

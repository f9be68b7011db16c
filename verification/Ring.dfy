/** Index arithmetic shared by every descriptor ring of the driver
    (src/t7xx_hif_dpmaif.c:35-56), on 32-bit machine integers, and its link to
    unbounded position counters: a ring index is a counter modulo the ring size. */
module Ring {

  const TWO_32 := 0x1_0000_0000
  const TWO_31 := 0x8000_0000

  /** Sizes for which the driver's signed 32-bit index differences are exact. */
  type RingSize = n: int | 2 <= n <= TWO_31 witness 2

  datatype Direction = Read | Write

  function ToU32(x: int): nat {
    x % TWO_32
  }

  function ToS32(x: nat): int {
    if x < TWO_31 then x else x - TWO_32
  }

  /** t7xx_ring_buf_get_next_wr_idx */
  function NextIdx(len: nat, idx: nat): nat {
    var next := ToU32(idx + 1);
    if next < len then next else 0
  }

  /** t7xx_ring_buf_rd_wr_count, with the machine's wrap-around written out. */
  function RdWrCount(total: nat, rd: nat, wr: nat, dir: Direction): nat {
    var diff := if dir.Read? then wr - rd else rd - wr - 1;
    var cnt := ToS32(ToU32(diff));
    ToU32(if cnt < 0 then cnt + total else cnt)
  }

  /** Circular distance from one index to another. */
  function Dist(n: RingSize, from: nat, to: nat): (d: nat)
    requires from < n && to < n
    ensures d < n
  {
    if from <= to then to - from else to - from + n
  }

  // ----- counters and indices -----

  /** The index of a position: the position modulo the ring size. */
  function Idx(n: RingSize, c: nat): (i: nat)
    ensures i < n
    decreases c
  {
    if c < n then c else Idx(n, c - n)
  }

  /** Index i is the index of a position from base up to, not including, end. */
  predicate Live(n: RingSize, base: nat, end: nat, i: nat)
    requires i < n
  {
    Dist(n, Idx(n, base), i) < end - base
  }

  lemma {:induction false} IdxIsMod(n: RingSize, c: nat)
    ensures Idx(n, c) == c % n
    decreases c
  {
    if c >= n {
      IdxIsMod(n, c - n);
      ModTurn(n, c);
    }
  }

  lemma ModTurn(n: RingSize, c: nat)
    requires c >= n
    ensures c % n == (c - n) % n
  {
    var d := c / n - (c - n) / n - 1;
    assert d * n == (c - n) % n - c % n;
    MulSmall(d, n, (c - n) % n - c % n);
  }

  lemma MulSmall(d: int, n: int, e: int)
    requires d * n == e && -n < e < n
    ensures d == 0
  {
    MulAtLeast(d, n);
    MulAtLeast(-d, n);
  }

  lemma MulAtLeast(d: int, n: int)
    requires 0 < n
    ensures d >= 1 ==> d * n >= n
  {
  }

  /** Adding at most a full turn to a position wraps its index at most once. */
  lemma {:induction false} IdxAdd(n: RingSize, c: nat, k: nat)
    requires k <= n
    ensures Idx(n, c + k) == if Idx(n, c) + k < n then Idx(n, c) + k else Idx(n, c) + k - n
    decreases c
  {
    if c >= n {
      IdxAdd(n, c - n, k);
    }
  }

  /** Positions less than a turn apart: the circular distance is their difference. */
  lemma DistOfPositions(n: RingSize, a: nat, b: nat)
    requires a <= b < a + n
    ensures Dist(n, Idx(n, a), Idx(n, b)) == b - a
  {
    IdxAdd(n, a, b - a);
  }

  lemma IdxInjective(n: RingSize, base: nat, a: nat, b: nat)
    requires base <= a < base + n && base <= b < base + n
    requires Idx(n, a) == Idx(n, b)
    ensures a == b
  {
    DistOfPositions(n, base, a);
    DistOfPositions(n, base, b);
  }

  /** Every index is the index of exactly one position of a turn starting at base. */
  lemma PositionOf(n: RingSize, base: nat, idx: nat) returns (c: nat)
    requires idx < n
    ensures base <= c < base + n && Idx(n, c) == idx && c == base + Dist(n, Idx(n, base), idx)
  {
    c := base + Dist(n, Idx(n, base), idx);
    IdxAdd(n, base, Dist(n, Idx(n, base), idx));
  }

  lemma NextIdxOfPosition(n: RingSize, c: nat)
    ensures NextIdx(n, Idx(n, c)) == Idx(n, c + 1)
  {
    IdxAdd(n, c, 1);
  }

  // ----- the 32-bit count is exact -----

  /** For indices in range the machine computation never goes wrong: the read
      count is the circular distance, the write count is what is left of the
      ring after one slot is kept free, and the two always add up to size - 1. */
  lemma CountExact(n: RingSize, rd: nat, wr: nat)
    requires rd < n && wr < n
    ensures RdWrCount(n, rd, wr, Read) == Dist(n, rd, wr)
    ensures RdWrCount(n, rd, wr, Write) == n - 1 - Dist(n, rd, wr)
    ensures RdWrCount(n, rd, wr, Read) + RdWrCount(n, rd, wr, Write) == n - 1
  {
    S32RoundTrip(wr - rd);
    S32RoundTrip(rd - wr - 1);
  }

  lemma S32RoundTrip(x: int)
    requires -TWO_31 <= x < TWO_31
    ensures ToS32(ToU32(x)) == x
  {
  }

  /** The same in terms of positions. */
  lemma CountOfPositions(n: RingSize, rd: nat, wr: nat)
    requires rd <= wr < rd + n
    ensures RdWrCount(n, Idx(n, rd), Idx(n, wr), Read) == wr - rd
    ensures RdWrCount(n, Idx(n, rd), Idx(n, wr), Write) == n - 1 - (wr - rd)
  {
    DistOfPositions(n, rd, wr);
    CountExact(n, Idx(n, rd), Idx(n, wr));
  }
}

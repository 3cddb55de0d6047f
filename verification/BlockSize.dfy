/** `MemoryBlock::get_block_size` (example/brpc/memory_pool.hpp:17-35). */
module BlockSize {

  /** The header of a block: its capacity and the link to the next block. */
  const HEADER: nat := 16
  const PAGE: nat := 4096

  predicate IsPow2(n: nat) {
    n == 1 || (n > 1 && n % 2 == 0 && IsPow2(n / 2))
  }

  /** The least power of two that is at least `n`, found by doubling `p`. */
  function PowUp(p: nat, n: nat): (r: nat)
    requires 0 < p
    ensures r >= n && r >= p
    decreases n - p
  {
    if p >= n then p else PowUp(2 * p, n)
  }

  /** The size of the whole block for a payload of `n` bytes: a power of two up to a page, then whole pages. */
  function WholeFor(n: nat): (w: nat)
    ensures w >= n + HEADER
  {
    if n + HEADER > PAGE then (n + HEADER + PAGE - 1) / PAGE * PAGE else PowUp(1, n + HEADER)
  }

  function BlockSizeFor(n: nat): nat {
    WholeFor(n) - HEADER
  }

  lemma {:induction false} PowUpIsPow2(p: nat, n: nat)
    requires IsPow2(p)
    ensures IsPow2(PowUp(p, n)) && (PowUp(p, n) == p || PowUp(p, n) < 2 * n)
    decreases n - p
  {
    if p < n {
      assert IsPow2(2 * p);
      PowUpIsPow2(2 * p, n);
    }
  }

  /** Between a power of two and its double there is no other. */
  lemma {:induction false} Pow2Gap(p: nat, q: nat)
    requires IsPow2(p) && IsPow2(q) && p < q
    ensures 2 * p <= q
    decreases p
  {
    if p > 1 {
      Pow2Gap(p / 2, q / 2);
    }
  }

  lemma {:induction false} PowUpIsLeast(p: nat, n: nat, q: nat)
    requires IsPow2(p) && IsPow2(q) && p <= q && n <= q
    ensures PowUp(p, n) <= q
    decreases n - p
  {
    if p < n {
      Pow2Gap(p, q);
      assert IsPow2(2 * p);
      PowUpIsLeast(2 * p, n, q);
    }
  }

  lemma {:induction false} Pow2Multiple(p: nat)
    requires IsPow2(p) && p >= 16
    ensures p % 16 == 0
    decreases p
  {
    if p > 16 {
      Pow2Gap(16, p);
      Pow2Multiple(p / 2);
    }
  }

  lemma {:induction false} PositivePow2(q: nat)
    requires IsPow2(q)
    ensures q >= 1
  {
  }

  /** Up to a page the whole block is the least power of two that is large enough. */
  lemma SmallIsLeastPow2(n: nat, q: nat)
    requires n + HEADER <= PAGE && IsPow2(q) && n + HEADER <= q
    ensures IsPow2(WholeFor(n)) && n + HEADER <= WholeFor(n) <= q
  {
    PowUpIsPow2(1, n + HEADER);
    PositivePow2(q);
    PowUpIsLeast(1, n + HEADER, q);
  }

  /** Beyond a page it is the least whole number of pages that is large enough. */
  lemma LargeIsLeastPages(n: nat, pages: nat)
    requires n + HEADER > PAGE && n + HEADER <= pages * PAGE
    ensures WholeFor(n) % PAGE == 0 && n + HEADER <= WholeFor(n) <= pages * PAGE
  {
  }

  /** The capacity of a pool block is a multiple of the largest alignment handled in place. */
  lemma BlockSizeAligned(n: nat)
    ensures BlockSizeFor(n) % 16 == 0 && BlockSizeFor(n) >= n
  {
    if n + HEADER <= PAGE {
      PowUpIsPow2(1, n + HEADER);
      Pow2Multiple(PowUp(1, n + HEADER));
    }
  }

  lemma BlockSizeMonotone(n: nat, m: nat)
    requires n <= m
    ensures BlockSizeFor(n) <= BlockSizeFor(m)
  {
    if n + HEADER <= PAGE {
      PageIsPow2();
      if m + HEADER <= PAGE {
        PowUpIsPow2(1, m + HEADER);
        SmallIsLeastPow2(n, WholeFor(m));
      } else {
        SmallIsLeastPow2(n, PAGE);
      }
    }
  }

  lemma PageIsPow2()
    ensures IsPow2(PAGE)
  {
    assert IsPow2(4) && IsPow2(16) && IsPow2(64);
    assert IsPow2(256) && IsPow2(1024) && IsPow2(4096);
  }

  /** A block size is its own block size. */
  lemma BlockSizeIdempotent(n: nat)
    ensures BlockSizeFor(BlockSizeFor(n)) == BlockSizeFor(n)
  {
    var w := WholeFor(n);
    if n + HEADER <= PAGE {
      PageIsPow2();
      SmallIsLeastPow2(n, PAGE);
      SmallIsLeastPow2(w - HEADER, w);
    }
  }

  /** `get_block_size`. */
  method GetBlockSize(expected: nat) returns (size: nat)
    ensures size == BlockSizeFor(expected)
  {
    var min := HEADER + expected;
    var blockSize: nat;
    if min > PAGE {
      blockSize := (min + PAGE - 1) / PAGE * PAGE;
    } else {
      blockSize := HighestBit(min);
      Between(blockSize, min);
      if blockSize < min {
        blockSize := blockSize * 2;
      }
    }
    size := blockSize - HEADER;
  }

  /** The shift loop: `power` collects the bits that `remain` sheds. */
  method HighestBit(n: nat) returns (power: nat)
    requires n >= 1
    ensures IsPow2(power) && power <= n < 2 * power
  {
    var remain := n;
    power := 1;
    while remain > 1
      invariant remain >= 1 && IsPow2(power)
      invariant power * remain <= n < power * (remain + 1)
    {
      Halve(power, remain);
      PositivePow2(power);
      power := power * 2;
      remain := remain / 2;
    }
    assert power * 1 == power;
  }

  lemma Halve(b: nat, r: nat)
    requires r > 1
    ensures (b * 2) * (r / 2) <= b * r && b * (r + 1) <= (b * 2) * (r / 2 + 1)
  {
    var h := r / 2;
    assert r == 2 * h || r == 2 * h + 1;
    assert (b * 2) * h == b * (2 * h) && (b * 2) * (h + 1) == b * (2 * h + 2);
  }

  lemma Between(b: nat, n: nat)
    requires IsPow2(b) && b <= n < 2 * b
    ensures PowUp(1, n) == if b < n then 2 * b else b
  {
    assert IsPow2(2 * b);
    PowUpIsPow2(1, n);
    PositivePow2(b);
    var r := PowUp(1, n);
    if b < n {
      PowUpIsLeast(1, n, 2 * b);
      Pow2Gap(b, r);
    } else {
      PowUpIsLeast(1, n, b);
    }
  }
}

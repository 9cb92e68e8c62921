/** `UniformBuffer`: the size rounding to the device's uniform-buffer offset
    alignment, and the capacity check that grows the buffer.

    `VkDeviceSize` is a 64-bit unsigned integer, so the rounding formula
    `(size + a - 1) & ~(a - 1)` is evaluated modulo 2^64 here, with the bitwise
    AND written out on natural numbers. */
module UniformBuffer {
  /** 2^64: every `VkDeviceSize` is below it. */
  const U64: nat := 0x1_0000_0000_0000_0000

  function Pow2(k: nat): (p: nat)
    ensures p >= 1
  {
    if k == 0 then 1 else 2 * Pow2(k - 1)
  }

  /** Bitwise AND of two naturals, one bit at a time from the lowest. */
  function And(x: nat, y: nat): (r: nat)
    ensures r <= x
    decreases x
  {
    if x == 0 || y == 0 then 0 else 2 * And(x / 2, y / 2) + (x % 2) * (y % 2)
  }

  /** Bitwise complement on 64 bits. */
  function Not64(y: nat): (r: nat)
    requires y < U64
    ensures r < U64 && r + y == U64 - 1
  {
    U64 - 1 - y
  }

  /** `GetAlignedSize`: an alignment of 0 leaves the size alone; otherwise the
      size is rounded with the mask formula, in 64-bit arithmetic. */
  function GetAlignedSize(alignment: nat, size: nat): (r: nat)
    requires alignment < U64 && size < U64
    ensures r < U64
    ensures alignment == 0 ==> r == size
    ensures alignment > 0 ==> r <= (size + alignment - 1) % U64
  {
    if alignment > 0 then And((size + alignment - 1) % U64, Not64(alignment - 1)) else size
  }

  /** The smallest multiple of `a` that is at least `size`. */
  function RoundUp(size: nat, a: nat): (r: nat)
    requires a > 0
  {
    (size + a - 1) / a * a
  }

  lemma {:induction false} Pow2Add(a: nat, b: nat)
    ensures Pow2(a + b) == Pow2(a) * Pow2(b)
    decreases a
  {
    if a > 0 {
      Pow2Add(a - 1, b);
    }
  }

  /** The exponent of the 64-bit range. */
  lemma Bits64() returns (n: nat)
    ensures Pow2(n) == U64
  {
    n := 64;
    assert Pow2(4) == 16;
    Pow2Add(4, 4);
    assert Pow2(8) == 256;
    Pow2Add(8, 8);
    assert Pow2(16) == 0x1_0000;
    Pow2Add(16, 16);
    assert Pow2(32) == 0x1_0000_0000;
    Pow2Add(32, 32);
  }

  lemma {:induction false} Pow2Monotone(k: nat, n: nat)
    requires k <= n
    ensures Pow2(k) <= Pow2(n)
    decreases n
  {
    if k < n {
      Pow2Monotone(k, n - 1);
    }
  }

  /** ANDing with n low one-bits keeps every number below 2^n. */
  lemma {:induction false} AndLowOnes(x: nat, n: nat)
    requires x < Pow2(n)
    ensures And(x, Pow2(n) - 1) == x
    decreases n
  {
    if n > 0 && x > 0 {
      AndLowOnes(x / 2, n - 1);
      assert (Pow2(n) - 1) / 2 == Pow2(n - 1) - 1;
      assert (Pow2(n) - 1) % 2 == 1;
    }
  }

  /** Splitting the remainder modulo 2^k into the lowest bit and the rest. */
  lemma ModPow2Split(x: nat, k: nat)
    requires k > 0
    ensures x % Pow2(k) == x % 2 + 2 * ((x / 2) % Pow2(k - 1))
  {
    var p := Pow2(k - 1);
    var q := x / 2;
    var m := q / p;
    var rr := q % p;
    assert x == m * Pow2(k) + (2 * rr + x % 2) by {
      assert q == m * p + rr;
      assert x == 2 * q + x % 2;
      assert m * Pow2(k) == 2 * (m * p);
    }
    ModUnique(x, Pow2(k), m, 2 * rr + x % 2);
  }

  lemma MulMonotone(a: nat, b: nat, d: nat)
    requires a < b
    ensures a * d + d <= b * d
  {
    var c := b - a - 1;
    assert b * d == (a + 1 + c) * d == a * d + d + c * d;
  }

  /** Quotient and remainder are the only such pair. */
  lemma ModUnique(x: nat, d: nat, q: nat, r: nat)
    requires d > 0 && r < d && x == q * d + r
    ensures x % d == r && x / d == q
  {
    var q0 := x / d;
    assert x == q0 * d + x % d;
    if q0 < q {
      MulMonotone(q0, q, d);
    } else if q < q0 {
      MulMonotone(q, q0, d);
    }
  }

  /** A mask of ones from bit k up to bit n - 1 clears the low k bits of any
      number below 2^n. */
  function HighMask(n: nat, k: nat): (m: nat)
    requires k <= n
    ensures m + Pow2(k) == Pow2(n)
  {
    Pow2Monotone(k, n);
    Pow2(n) - Pow2(k)
  }

  /** The low k bits of x. */
  function LowBits(x: nat, k: nat): (r: nat)
    ensures r <= x
  {
    if k == 0 then 0 else x % 2 + 2 * LowBits(x / 2, k - 1)
  }

  lemma {:induction false} LowBitsAreMod(x: nat, k: nat)
    ensures LowBits(x, k) == x % Pow2(k)
    decreases k
  {
    if k > 0 {
      LowBitsAreMod(x / 2, k - 1);
      ModPow2Split(x, k);
    }
  }

  lemma {:induction false} AndHighOnes(x: nat, n: nat, k: nat)
    requires k <= n && x < Pow2(n)
    ensures And(x, HighMask(n, k)) == x - LowBits(x, k)
    decreases k
  {
    if k == 0 {
      AndLowOnes(x, n);
    } else if k == n {
      LowBitsAreMod(x, k);
      ModUnique(x, Pow2(n), 0, x);
    } else if x > 0 {
      HighMaskHalves(n, k);
      AndEven(x, HighMask(n, k));
      AndHighOnes(x / 2, n - 1, k - 1);
    }
  }

  lemma HighMaskHalves(n: nat, k: nat)
    requires 0 < k < n
    ensures HighMask(n, k) > 0 && HighMask(n, k) % 2 == 0
    ensures HighMask(n, k) / 2 == HighMask(n - 1, k - 1)
  {
    Pow2Monotone(k, n - 1);
    assert HighMask(n, k) == 2 * HighMask(n - 1, k - 1);
  }

  lemma AndEven(x: nat, y: nat)
    requires x > 0 && y > 0 && y % 2 == 0
    ensures And(x, y) == 2 * And(x / 2, y / 2)
  {
  }

  /** For an alignment 2^k whose rounding does not wrap, the mask formula is
      rounding up to a multiple of the alignment. */
  lemma AlignedIsRoundUp(alignment: nat, k: nat, size: nat)
    requires alignment == Pow2(k) && alignment < U64
    requires size + alignment - 1 < U64
    ensures GetAlignedSize(alignment, size) == RoundUp(size, alignment)
  {
    var x := size + alignment - 1;
    var n := Bits64();
    Pow2Below(k, n);
    assert Not64(alignment - 1) == HighMask(n, k);
    assert And(x, HighMask(n, k)) == x - x % alignment by {
      AndHighOnes(x, n, k);
      LowBitsAreMod(x, k);
    }
    assert x % U64 == x;
    assert GetAlignedSize(alignment, size) == x - x % alignment;
    DivTimes(x, alignment);
  }

  lemma DivTimes(x: nat, a: nat)
    requires a > 0
    ensures x / a * a == x - x % a
  {
  }

  lemma Pow2Below(k: nat, n: nat)
    requires Pow2(k) < Pow2(n)
    ensures k < n
  {
    if n <= k {
      Pow2Monotone(n, k);
    }
  }

  /** Every alignment the device reports is a power of two; for it and a size
      whose rounding does not wrap, the aligned size is a multiple of the
      alignment, at least the size and less than a whole alignment above it. */
  lemma AlignedSizeBounds(alignment: nat, k: nat, size: nat)
    requires alignment == Pow2(k) && alignment < U64
    requires size + alignment - 1 < U64
    ensures var r := GetAlignedSize(alignment, size);
      r % alignment == 0 && size <= r < size + alignment
  {
    AlignedIsRoundUp(alignment, k, size);
    RoundUpBounds(size, alignment);
  }

  lemma RoundUpBounds(size: nat, a: nat)
    requires a > 0
    ensures RoundUp(size, a) % a == 0 && size <= RoundUp(size, a) < size + a
  {
    var x := size + a - 1;
    var q := x / a;
    assert x == q * a + x % a;
    ModUnique(q * a, a, q, 0);
  }

  /** Sizes that are already multiples of the alignment are left unchanged. */
  lemma AlignedSizeKeepsMultiples(alignment: nat, k: nat, size: nat)
    requires alignment == Pow2(k) && alignment < U64
    requires size + alignment - 1 < U64 && size % alignment == 0
    ensures GetAlignedSize(alignment, size) == size
  {
    AlignedIsRoundUp(alignment, k, size);
    RoundUpKeepsMultiples(size, alignment);
  }

  lemma RoundUpKeepsMultiples(size: nat, a: nat)
    requires a > 0 && size % a == 0
    ensures RoundUp(size, a) == size
  {
    var q := size / a;
    assert size == q * a;
    ModUnique(size + a - 1, a, q, a - 1);
  }

  /** Aligning twice is aligning once. */
  lemma AlignedSizeIdempotent(alignment: nat, k: nat, size: nat)
    requires alignment == Pow2(k) && alignment < U64
    requires size + alignment - 1 < U64
    ensures var r := GetAlignedSize(alignment, size);
      r + alignment - 1 < U64 ==> GetAlignedSize(alignment, r) == r
  {
    AlignedSizeBounds(alignment, k, size);
    var r := GetAlignedSize(alignment, size);
    if r + alignment - 1 < U64 {
      AlignedSizeKeepsMultiples(alignment, k, r);
    }
  }

  /** A larger request never gets a smaller aligned size. */
  lemma AlignedSizeMonotone(alignment: nat, k: nat, s1: nat, s2: nat)
    requires alignment == Pow2(k) && alignment < U64
    requires s1 <= s2 && s2 + alignment - 1 < U64
    ensures GetAlignedSize(alignment, s1) <= GetAlignedSize(alignment, s2)
  {
    AlignedIsRoundUp(alignment, k, s1);
    AlignedIsRoundUp(alignment, k, s2);
    RoundUpMonotone(s1, s2, alignment);
  }

  lemma RoundUpMonotone(s1: nat, s2: nat, a: nat)
    requires a > 0 && s1 <= s2
    ensures RoundUp(s1, a) <= RoundUp(s2, a)
  {
    var q1 := (s1 + a - 1) / a;
    var q2 := (s2 + a - 1) / a;
    DivMonotone(s1 + a - 1, s2 + a - 1, a);
    if q1 < q2 {
      MulMonotone(q1, q2, a);
    }
  }

  lemma DivMonotone(x: nat, y: nat, d: nat)
    requires x <= y && d > 0
    ensures x / d <= y / d
  {
    if y / d < x / d {
      MulMonotone(y / d, x / d, d);
    }
  }

  /** Near the top of the 64-bit range the sum wraps and the "aligned" size
      collapses to 0. */
  lemma AlignmentWrapsNearTop()
    ensures GetAlignedSize(256, U64 - 1) == 0
  {
    var n := Bits64();
    assert Pow2(8) == 256;
    Pow2Below(8, n);
    assert (U64 - 1 + 255) % U64 == 254;
    assert Not64(255) == HighMask(n, 8);
    AndHighOnes(254, n, 8);
    LowBitsAreMod(254, 8);
  }

  /** A uniform buffer: the alignment of its device, the size it records in
      `_bufferSize`, the size of the memory actually allocated for it, and how
      many allocations it has made. */
  datatype UniformBuffer = UniformBuffer(alignment: nat, size: nat, memory: nat, allocations: nat)

  /** The constructor allocates, and records, the aligned size rather than the
      requested one. */
  function New(alignment: nat, requested: nat): (b: UniformBuffer)
    requires alignment < U64 && requested < U64
    ensures b.size == b.memory == GetAlignedSize(alignment, requested)
    ensures b.alignment == alignment && b.allocations == 1
  {
    var aligned := GetAlignedSize(alignment, requested);
    UniformBuffer(alignment, aligned, aligned, 1)
  }

  /** For a power-of-two alignment a new buffer holds the requested size. */
  lemma NewHoldsRequest(alignment: nat, k: nat, requested: nat)
    requires alignment == Pow2(k) && alignment < U64 && requested + alignment - 1 < U64
    ensures New(alignment, requested).size >= requested
    ensures New(alignment, requested).size % alignment == 0
  {
    AlignedSizeBounds(alignment, k, requested);
  }

  /** The outcome of `EnsureCapacity`: the buffer and whether it reallocated. */
  datatype Ensured = Ensured(buffer: UniformBuffer, reallocated: bool)

  /** `EnsureCapacity` as written: a recorded size below the request
      reallocates memory of the requested size, but `ReallocateBuffer` never
      stores that size in `_bufferSize`. */
  function EnsureCapacityAsWritten(b: UniformBuffer, request: nat): (r: Ensured)
    ensures r.reallocated <==> b.size < request
    ensures !r.reallocated ==> r.buffer == b
    ensures r.reallocated ==> r.buffer == b.(memory := request, allocations := b.allocations + 1)
  {
    if b.size >= request then Ensured(b, false)
    else Ensured(b.(memory := request, allocations := b.allocations + 1), true)
  }

  /** As written, asking again for the same capacity reallocates again, and the
      buffer goes on reporting its old size. */
  lemma EnsureCapacityAsWrittenRepeats(b: UniformBuffer, request: nat)
    requires b.size < request
    ensures var first := EnsureCapacityAsWritten(b, request);
      var second := EnsureCapacityAsWritten(first.buffer, request);
      && second.reallocated
      && second.buffer.allocations == b.allocations + 2
      && second.buffer.size < second.buffer.memory
  {
  }

  /** `EnsureCapacity` as evidently intended: the reallocation also records the
      new size. */
  function EnsureCapacity(b: UniformBuffer, request: nat): (r: Ensured)
    ensures r.reallocated <==> b.size < request
    ensures r.buffer.size >= request || r.buffer == b
    ensures r.buffer.size >= b.size
    ensures r.buffer.alignment == b.alignment
  {
    if b.size >= request then Ensured(b, false)
    else Ensured(b.(size := request, memory := request, allocations := b.allocations + 1), true)
  }

  /** The recorded size describes the memory actually allocated. */
  predicate Consistent(b: UniformBuffer)
  {
    b.size == b.memory
  }

  /** The corrected operation keeps the buffer consistent, never leaves it
      smaller than the request, and a repeated request does nothing. */
  lemma EnsureCapacitySettles(b: UniformBuffer, request: nat)
    requires Consistent(b)
    ensures var first := EnsureCapacity(b, request);
      && Consistent(first.buffer)
      && first.buffer.size >= request
      && EnsureCapacity(first.buffer, request) == Ensured(first.buffer, false)
  {
  }
}

/**
 * Address arithmetic of aligned heap segments. A segment's storage is KSize
 * bytes aligned to KSize, so the storage holding any pointer is found by
 * clearing the pointer's low KLogSize bits. Addresses are 64-bit unsigned
 * words (uintptr_t), written as integers; masking with kHighMask is
 * subtracting the remainder modulo KSize, and masking with kLowMask is taking
 * that remainder.
 */
module HeapAddress {
  /** A machine word (uintptr_t). */
  type Word = x: int | 0 <= x < 0x1_0000_0000_0000_0000

  function Pow2(k: nat): (r: nat)
    ensures r >= 1
  {
    if k == 0 then 1 else 2 * Pow2(k - 1)
  }

  /** log2 of the segment size: the build parameter HERMESVM_LOG_HEAP_SEGMENT_SIZE, here 22 (4 MiB). */
  const KLogSize: nat := 22
  /** 1 << KLogSize */
  const KSize: int := 0x40_0000

  lemma KSizeIsPowerOfTwo()
    ensures KSize == Pow2(KLogSize)
  {
    assert Pow2(4) == 16;
    assert Pow2(8) == 16 * 16 by { assert Pow2(8) == 16 * Pow2(4); }
    assert Pow2(12) == 16 * Pow2(8);
    assert Pow2(16) == 16 * Pow2(12);
    assert Pow2(20) == 16 * Pow2(16);
    assert Pow2(22) == 4 * Pow2(20);
  }

  /** Cells are aligned to 2^LogHeapAlign = 8 bytes. */
  const HeapAlign: int := 8

  /** The start of the storage holding `p` (p & kHighMask). */
  function StorageStart(p: Word): (r: Word)
    ensures r % KSize == 0 && r <= p < r + KSize
  {
    p - p % KSize
  }

  /** The (exclusive) end of the storage holding `p`. */
  function StorageEnd(p: Word): (r: int)
    ensures r % KSize == 0 && p < r <= p + KSize
  {
    StorageStart(p) + KSize
  }

  /** The byte offset of `p` inside its storage (p & kLowMask). */
  function Offset(p: Word): (r: Word)
    ensures r < KSize && StorageStart(p) + r == p
  {
    p % KSize
  }

  /** A pointer lies in its storage, at its offset from the start. */
  lemma StorageContainsPointer(p: Word)
    ensures StorageStart(p) <= p < StorageEnd(p)
    ensures StorageStart(p) + Offset(p) == p
    ensures StorageStart(p) % KSize == 0
  {
  }

  /** A storage start is its own storage start, and every pointer of a storage shares it. */
  lemma StorageStartOfStorage(p: Word, q: Word)
    requires StorageStart(p) <= q < StorageEnd(p)
    ensures StorageStart(q) == StorageStart(p)
  {
    DivModUnique(q, KSize, p / KSize, q - StorageStart(p));
  }

  /** Multiplying by a positive number does not shrink a positive factor. */
  lemma MulAtLeast(a: int, d: int)
    requires d > 0 && a >= 1
    ensures a * d >= d
  {
  }

  /** Quotient and remainder are unique. */
  lemma DivModUnique(x: int, d: int, q: int, r: int)
    requires d > 0 && 0 <= r < d && x == q * d + r
    ensures x % d == r && x / d == q
  {
    var a := q - x / d;
    assert a * d == x % d - r;
    if a >= 1 { MulAtLeast(a, d); }
    if a <= -1 { MulAtLeast(-a, d); }
  }

  /** Bitwise exclusive or of two naturals, one bit at a time from the bottom. */
  function Xor(a: nat, b: nat): nat
    decreases a + b
  {
    if a == 0 && b == 0 then 0
    else 2 * Xor(a / 2, b / 2) + (if a % 2 == b % 2 then 0 else 1)
  }

  /** x ^ y is zero exactly when x and y are equal. */
  lemma {:induction false} XorZeroIffEqual(a: nat, b: nat)
    ensures Xor(a, b) == 0 <==> a == b
    decreases a + b
  {
    if a == 0 && b == 0 {
    } else {
      XorZeroIffEqual(a / 2, b / 2);
    }
  }

  /** Dividing by 2 and then by m is dividing by 2m. */
  lemma DivHalfThen(x: nat, m: nat)
    requires m > 0
    ensures (x / 2) / m == x / (2 * m)
  {
    var h := x / 2;
    var q := h / m;
    assert h == q * m + h % m;
    assert x == q * (2 * m) + (2 * (h % m) + x % 2);
    DivModUnique(x, 2 * m, q, 2 * (h % m) + x % 2);
  }

  /** x ^ y has no bit at or above k exactly when x and y agree on those bits. */
  lemma {:induction false} XorBelowPow2(a: nat, b: nat, k: nat)
    ensures Xor(a, b) < Pow2(k) <==> a / Pow2(k) == b / Pow2(k)
    decreases k
  {
    if k == 0 {
      XorZeroIffEqual(a, b);
    } else {
      XorBelowPow2(a / 2, b / 2, k - 1);
      DivHalfThen(a, Pow2(k - 1));
      DivHalfThen(b, Pow2(k - 1));
      if a == 0 && b == 0 {
      } else {
        assert Xor(a, b) == 2 * Xor(a / 2, b / 2) + (if a % 2 == b % 2 then 0 else 1);
      }
    }
  }

  /** containedInSame: `a` and `b` lie in the same storage, by one XOR and compare. */
  predicate ContainedInSame(a: Word, b: Word) { Xor(a, b) < KSize }

  /** The XOR test agrees with comparing storage starts. */
  lemma ContainedInSameMeaning(a: Word, b: Word)
    ensures ContainedInSame(a, b) <==> StorageStart(a) == StorageStart(b)
  {
    KSizeIsPowerOfTwo();
    XorBelowPow2(a, b, KLogSize);
    assert a == (a / KSize) * KSize + a % KSize;
    assert b == (b / KSize) * KSize + b % KSize;
    if StorageStart(a) == StorageStart(b) {
      assert (a / KSize) * KSize == (b / KSize) * KSize;
    }
  }

  /** The index of `p`'s bit in its segment's mark-bit array: its distance from the storage start in 8-byte units. */
  function AddressToMarkBitArrayIndex(p: Word): (r: int)
    ensures r == Offset(p) / HeapAlign
    ensures p % HeapAlign == 0 ==> StorageStart(p) + r * HeapAlign == p
  {
    (p - StorageStart(p)) / HeapAlign
  }

  /** kMarkBitArraySize = kSize >> LogHeapAlign: one bit per heap-aligned address. */
  const MarkBitArraySize: int := KSize / HeapAlign

  /** Every address maps to a bit inside the mark-bit array. */
  lemma MarkBitIndexInRange(p: Word)
    ensures 0 <= AddressToMarkBitArrayIndex(p) < MarkBitArraySize
  {
  }

  /** Distinct heap-aligned addresses of one storage have distinct mark bits. */
  lemma MarkBitIndexInjective(p: Word, q: Word)
    requires StorageStart(p) == StorageStart(q) && p % HeapAlign == 0 && q % HeapAlign == 0
    ensures AddressToMarkBitArrayIndex(p) == AddressToMarkBitArrayIndex(q) <==> p == q
  {
    var r, t := AddressToMarkBitArrayIndex(p), AddressToMarkBitArrayIndex(q);
    assert StorageStart(p) + r * HeapAlign == p && StorageStart(q) + t * HeapAlign == q;
  }
}

/**
 * An aligned heap segment: a block of KSize bytes aligned to its own
 * size, holding GC metadata followed by an allocation region into which cells
 * are bump allocated. Pointers are machine words; a segment lies far below the
 * top of the address space, so no pointer sum here wraps.
 */
module HeapSegment {
  import opened Wrappers
  import opened HeapAddress

  /** Real storage is mapped below the top of the 48-bit user address space. */
  const AddressSpaceTop: int := 0x1_0000_0000_0000

  /** llvh::alignTo: round `n` up to a multiple of `align`. */
  function AlignTo(n: int, align: int): (r: int)
    requires n >= 0 && align > 0
    ensures r % align == 0 && n <= r < n + align
  {
    if n % align == 0 then n
    else
      var r := (n / align + 1) * align;
      DivModUnique(r, align, n / align + 1, 0);
      r
  }

  lemma MulCancelLess(x: int, y: int, d: int)
    requires d > 0 && x * d < y * d
    ensures x < y
  {
    if x >= y {
      MulNonNegative(x - y, d);
    }
  }

  lemma MulNonNegative(a: int, d: int)
    requires a >= 0 && d > 0
    ensures a * d >= 0
  {
  }

  /** alignTo yields the smallest multiple of `align` not below `n`. */
  lemma AlignToMinimal(n: int, align: int, m: int)
    requires n >= 0 && align > 0 && m % align == 0 && n <= m
    ensures AlignTo(n, align) <= m
  {
    if n % align != 0 {
      var p, q := m / align, n / align;
      assert m == p * align;
      assert n == q * align + n % align;
      MulCancelLess(q, p, align);
      MulNonNegative(p - (q + 1), align);
      assert AlignTo(n, align) == (q + 1) * align;
    }
  }

  /** Aligning to a page is monotone. */
  lemma AlignToMonotone(m: int, n: int, align: int)
    requires 0 <= m <= n && align > 0
    ensures AlignTo(m, align) <= AlignTo(n, align)
  {
    AlignToMinimal(m, align, AlignTo(n, align));
  }

  /** Aligning never passes a page-aligned bound above the argument. */
  lemma AlignToBelowAlignedBound(n: int, bound: int, align: int)
    requires 0 <= n <= bound && align > 0 && bound % align == 0
    ensures AlignTo(n, align) <= bound
  {
    AlignToMinimal(n, align, bound);
  }

  /** The result of an allocation: a cell pointer (0 for none) and whether it succeeded. */
  datatype AllocResult = AllocResult(ptr: Word, success: bool)

  /** A page range handed back to the operating system by markUnused. */
  datatype Released = Released(start: int, end: int)

  class AlignedHeapSegment {
    /** The start of the storage; 0 for a null segment. */
    var lowLim: Word
    /** The storage provider that owns the memory, if any. */
    var provider: Option<nat>
    var level: Word
    var effectiveEnd: Word
    /** Offset of the allocation region inside the storage, fixed by the Contents layout. */
    const regionOffset: Word
    /** sizeof(GCCell): the smallest cell. */
    const minCellSize: Word
    /** The operating system's page size. */
    const pageSize: Word

    /** The layout facts the header asserts statically, and a page size dividing the segment size. */
    predicate LayoutOk()
      reads this
    {
      && regionOffset < KSize && regionOffset % 8 == 0
      && 0 < minCellSize < KSize
      && 0 < pageSize && KSize % pageSize == 0
    }

    function HiLim(): int reads this { lowLim + KSize }
    function Start(): int reads this { lowLim + regionOffset }
    function MaxSize(): int reads this { KSize - regionOffset }
    function End(): int reads this { Start() + MaxSize() }
    /** size: the whole allocation region, maxSize. */
    function Size(): (r: int)
      reads this
      ensures r == MaxSize() && (LayoutOk() ==> 0 < r <= KSize)
    {
      End() - Start()
    }

    /** used: the bytes allocated so far, within the region while the levels are ordered. */
    function Used(): (r: int)
      reads this
      ensures Start() + r == level
      ensures LevelsOrdered() ==> 0 <= r <= Size()
    {
      level - Start()
    }

    /** available: the bytes still allocatable; with `used` and the part beyond the effective end, the region. */
    function Available(): (r: int)
      reads this
      ensures Used() + r + (End() - effectiveEnd) == Size()
      ensures LevelsOrdered() ==> 0 <= r <= Size() - Used()
    {
      effectiveEnd - level
    }

    /** operator bool: whether the segment owns storage. */
    predicate IsNull() reads this { lowLim == 0 }

    /** contains: `p` lies in this segment's storage (its storage start, in integers, is lowLim). */
    predicate Contains(p: Word) reads this { StorageStart(p) == lowLim }

    /** dbgContainsLevel: a level may be anywhere in the storage or exactly at its end. */
    predicate DbgContainsLevel(lvl: Word) reads this { Contains(lvl) || lvl == HiLim() }

    /** validPointer, apart from the cell's own validity check: `p` is in the allocated part. */
    predicate ValidPointer(p: Word) reads this { Start() <= p < level }

    /** The segment's invariant: aligned storage, a level inside it, an effective end inside the region. */
    predicate Valid()
      reads this
    {
      && LayoutOk()
      && lowLim % KSize == 0
      && lowLim < AddressSpaceTop
      && lowLim <= level <= HiLim()
      && Start() <= effectiveEnd <= End()
    }

    /** The bump-allocation invariant `start <= level <= effectiveEnd <= end`. */
    predicate LevelsOrdered()
      reads this
    {
      Start() <= level <= effectiveEnd <= End()
    }

    /** The region ends exactly at the end of the storage, which is page aligned. */
    lemma EndIsHiLim()
      requires Valid()
      ensures End() == HiLim() && Start() < End() && HiLim() % pageSize == 0
    {
      assert HiLim() == (lowLim / KSize + 1) * KSize;
      DivisibleTransitive(lowLim / KSize + 1, KSize, pageSize);
    }

    /** dbgContainsLevel accepts exactly the levels from lowLim to hiLim. */
    lemma DbgContainsLevelMeaning(lvl: Word)
      requires Valid()
      ensures DbgContainsLevel(lvl) <==> lowLim <= lvl <= HiLim()
    {
      if lowLim <= lvl < HiLim() {
        DivModUnique(lvl, KSize, lowLim / KSize, lvl - lowLim);
      }
      if Contains(lvl) {
        assert 0 <= lvl % KSize < KSize;
      }
    }

    /** A null segment (one that owns no memory). */
    constructor Null(regionOffset: Word, minCellSize: Word, pageSize: Word)
      requires regionOffset < KSize && regionOffset % 8 == 0 && 0 < minCellSize < KSize
      requires 0 < pageSize && KSize % pageSize == 0
      ensures Valid() && LevelsOrdered() && IsNull() && provider == None
      ensures this.regionOffset == regionOffset && this.minCellSize == minCellSize && this.pageSize == pageSize
      ensures level == Start() && effectiveEnd == End()
    {
      this.regionOffset := regionOffset;
      this.minCellSize := minCellSize;
      this.pageSize := pageSize;
      lowLim := 0;
      provider := None;
      level := regionOffset;
      effectiveEnd := KSize;
    }

    /** A segment over the storage at `lowLim`, which must be aligned to the segment size. */
    constructor (provider: nat, lowLim: Word, regionOffset: Word, minCellSize: Word, pageSize: Word)
      requires regionOffset < KSize && regionOffset % 8 == 0 && 0 < minCellSize < KSize
      requires 0 < pageSize && KSize % pageSize == 0
      requires lowLim % KSize == 0 && lowLim < AddressSpaceTop
      ensures Valid() && LevelsOrdered()
      ensures this.lowLim == lowLim && this.provider == Some(provider)
      ensures this.regionOffset == regionOffset && this.minCellSize == minCellSize && this.pageSize == pageSize
      ensures level == Start() && effectiveEnd == End() && Used() == 0
    {
      this.regionOffset := regionOffset;
      this.minCellSize := minCellSize;
      this.pageSize := pageSize;
      this.lowLim := lowLim;
      this.provider := Some(provider);
      level := lowLim + regionOffset;
      effectiveEnd := lowLim + KSize;
    }

    /**
     * alloc (the 64-bit path): fails without touching the level when the cell
     * would pass the effective end; otherwise returns the old level and bumps
     * it by exactly `size`. The sum cannot wrap, as the segment lies far
     * below the top of the address space.
     */
    method Alloc(size: Word) returns (r: AllocResult)
      requires Valid() && !IsNull()
      requires size < 0x1_0000_0000 && size >= minCellSize && size % 8 == 0
      modifies this
      ensures Valid()
      ensures lowLim == old(lowLim) && provider == old(provider) && effectiveEnd == old(effectiveEnd)
      ensures old(level) + size > effectiveEnd ==> r == AllocResult(0, false) && level == old(level)
      ensures old(level) + size <= effectiveEnd ==> r == AllocResult(old(level), true) && level == old(level) + size
      ensures old(LevelsOrdered()) ==> LevelsOrdered() && Used() + Available() == old(Used() + Available())
    {
      var newLevel := level + size;
      if newLevel > effectiveEnd {
        return AllocResult(0, false);
      }
      var cellPtr := level;
      level := newLevel;
      return AllocResult(cellPtr, true);
    }

    /** The 32-bit path's test `available() < size` fails exactly when the 64-bit path's does. */
    lemma AllocPathsAgree(size: Word)
      requires Valid() && LevelsOrdered()
      ensures (level + size > effectiveEnd) <==> (Available() < size)
    {
    }

    /**
     * setLevel (release build): moving the level down with advice hands the
     * whole pages between the new and the old level back to the system; the
     * range passed on always meets markUnused's requirements.
     */
    method SetLevel(lvl: Word, advise: bool) returns (released: Option<Released>)
      requires Valid() && DbgContainsLevel(lvl)
      modifies this
      ensures Valid() && level == lvl
      ensures lowLim == old(lowLim) && provider == old(provider) && effectiveEnd == old(effectiveEnd)
      ensures Start() <= lvl <= effectiveEnd ==> LevelsOrdered()
      ensures released.Some? <==> advise && lvl < old(level)
      ensures released.Some? ==> released.value == Released(AlignTo(lvl, pageSize), AlignTo(old(level), pageSize))
      ensures released.Some? ==> MarkUnusedAllowed(released.value)
    {
      DbgContainsLevelMeaning(lvl);
      released := None;
      if lvl < level && advise {
        EndIsHiLim();
        AlignToMonotone(lvl, level, pageSize);
        AlignToBelowAlignedBound(level, HiLim(), pageSize);
        released := Some(Released(AlignTo(lvl, pageSize), AlignTo(level, pageSize)));
      }
      level := lvl;
    }

    /** markUnused's requirements: page-aligned bounds, in order, inside the storage. */
    predicate MarkUnusedAllowed(range: Released)
      reads this
    {
      && pageSize > 0 && range.start % pageSize == 0 && range.end % pageSize == 0
      && range.start <= range.end
      && lowLim <= range.start && range.end <= HiLim()
    }

    /** markUnused: the number of bytes handed to the operating system, at most a whole segment. */
    method MarkUnused(range: Released) returns (length: Word)
      requires Valid() && MarkUnusedAllowed(range)
      ensures length == range.end - range.start && length <= KSize
      ensures length % pageSize == 0
    {
      length := range.end - range.start;
      ModOfDifference(range.end, range.start, pageSize);
    }

    /** resetLevel: back to the start of the allocation region; everything is free again. */
    method ResetLevel(advise: bool) returns (released: Option<Released>)
      requires Valid()
      modifies this
      ensures Valid() && LevelsOrdered() && level == Start() && Used() == 0
      ensures lowLim == old(lowLim) && provider == old(provider) && effectiveEnd == old(effectiveEnd)
      ensures released.Some? ==> MarkUnusedAllowed(released.value)
    {
      EndIsHiLim();
      DbgContainsLevelMeaning(Start());
      released := SetLevel(Start(), advise);
    }

    /** setEffectiveEnd: the end must lie in the region and not below the level. */
    method SetEffectiveEnd(e: Word)
      requires Valid() && Start() <= e <= End() && level <= e
      modifies this
      ensures Valid() && effectiveEnd == e
      ensures lowLim == old(lowLim) && provider == old(provider) && level == old(level)
      ensures old(Start() <= level) ==> LevelsOrdered()
    {
      effectiveEnd := e;
    }

    /** clearExternalMemoryCharge: the effective end goes back to the end of the region. */
    method ClearExternalMemoryCharge()
      requires Valid()
      modifies this
      ensures Valid() && effectiveEnd == End()
      ensures lowLim == old(lowLim) && provider == old(provider) && level == old(level)
    {
      EndIsHiLim();
      SetEffectiveEnd(End());
    }
  }

  lemma DivisibleTransitive(k: int, n: int, d: int)
    requires k >= 0 && n > 0 && d > 0 && n % d == 0
    ensures (k * n) % d == 0
  {
    var q := n / d;
    assert n == q * d;
    assert k * n == (k * q) * d;
    DivModUnique(k * n, d, k * q, 0);
  }

  lemma ModOfDifference(a: int, b: int, d: int)
    requires d > 0 && a % d == 0 && b % d == 0 && b <= a
    ensures (a - b) % d == 0
  {
    assert a == (a / d) * d && b == (b / d) * d;
    assert a - b == (a / d - b / d) * d;
    DivModUnique(a - b, d, a / d - b / d, 0);
  }

  /** swap: exchanges the four fields of two segments. */
  method Swap(a: AlignedHeapSegment, b: AlignedHeapSegment)
    modifies a, b
    ensures a.lowLim == old(b.lowLim) && b.lowLim == old(a.lowLim)
    ensures a.provider == old(b.provider) && b.provider == old(a.provider)
    ensures a.level == old(b.level) && b.level == old(a.level)
    ensures a.effectiveEnd == old(b.effectiveEnd) && b.effectiveEnd == old(a.effectiveEnd)
  {
    var lowLim, provider, level, effectiveEnd := a.lowLim, a.provider, a.level, a.effectiveEnd;
    a.lowLim, a.provider, a.level, a.effectiveEnd := b.lowLim, b.provider, b.level, b.effectiveEnd;
    b.lowLim, b.provider, b.level, b.effectiveEnd := lowLim, provider, level, effectiveEnd;
  }

  /** The move constructor: a null segment swapped with the source, which is left null. */
  method MoveConstruct(other: AlignedHeapSegment) returns (s: AlignedHeapSegment)
    requires other.Valid()
    modifies other
    ensures fresh(s) && s.Valid()
    ensures s.lowLim == old(other.lowLim) && s.provider == old(other.provider)
    ensures s.level == old(other.level) && s.effectiveEnd == old(other.effectiveEnd)
    ensures other.IsNull() && other.provider == None
  {
    s := new AlignedHeapSegment.Null(other.regionOffset, other.minCellSize, other.pageSize);
    Swap(s, other);
  }
}

/**
 * Layout arithmetic of the bytecode module: the function table, the virtual
 * offsets of functions handed to the source map, and where a function's jump
 * tables sit after its opcodes.
 */
module BytecodeLayout {
  import opened Wrappers

  type Byte = x: int | 0 <= x < 256

  const Uint32Modulus: nat := 0x1_0000_0000

  /** The smallest multiple of 4 at or above `n` (llvh::alignTo<4>). */
  function AlignTo4(n: nat): (r: nat)
    ensures r % 4 == 0
    ensures n <= r < n + 4
    ensures forall m: nat :: n <= m && m % 4 == 0 ==> r <= m
  {
    if n % 4 == 0 then n else n + (4 - n % 4)
  }

  /** The little-endian 32-bit word stored at `at`. */
  function WordAt(bytes: seq<Byte>, at: nat): (w: nat)
    requires at + 4 <= |bytes|
    ensures w < Uint32Modulus
  {
    bytes[at] as int + 256 * (bytes[at + 1] as int) + 65536 * (bytes[at + 2] as int) + 16777216 * (bytes[at + 3] as int)
  }

  /**
   * The function keeps its opcodes and jump tables in one buffer; whatever
   * follows the 4-aligned end of the opcodes is a whole number of words.
   */
  predicate JumpTablesAligned(bytecodeSize: nat, opcodesAndJumpTables: seq<Byte>)
  {
    AlignTo4(bytecodeSize) <= |opcodesAndJumpTables| ==>
      (|opcodesAndJumpTables| - AlignTo4(bytecodeSize)) % 4 == 0
  }

  /** getJumpTablesOnly: the jump-table words after the aligned end of the opcodes. */
  function JumpTablesOnly(bytecodeSize: nat, opcodesAndJumpTables: seq<Byte>): (tables: seq<nat>)
    requires JumpTablesAligned(bytecodeSize, opcodesAndJumpTables)
    ensures AlignTo4(bytecodeSize) > |opcodesAndJumpTables| ==> tables == []
    ensures AlignTo4(bytecodeSize) <= |opcodesAndJumpTables| ==>
      |tables| * 4 == |opcodesAndJumpTables| - AlignTo4(bytecodeSize)
    ensures forall i :: 0 <= i < |tables| ==>
      AlignTo4(bytecodeSize) + 4 * i + 4 <= |opcodesAndJumpTables|
      && tables[i] == WordAt(opcodesAndJumpTables, AlignTo4(bytecodeSize) + 4 * i)
  {
    var start := AlignTo4(bytecodeSize);
    if start > |opcodesAndJumpTables| then []
    else Words(opcodesAndJumpTables, start, (|opcodesAndJumpTables| - start) / 4)
  }

  /** `count` consecutive words starting at byte `from`. */
  function Words(bytes: seq<Byte>, from: nat, count: nat): (ws: seq<nat>)
    requires from + 4 * count <= |bytes|
    ensures |ws| == count
    ensures forall i :: 0 <= i < count ==> ws[i] == WordAt(bytes, from + 4 * i)
    decreases count
  {
    if count == 0 then [] else [WordAt(bytes, from)] + Words(bytes, from + 4, count - 1)
  }

  function Sum(s: seq<nat>): nat
  {
    if s == [] then 0 else Sum(s[..|s| - 1]) + s[|s| - 1]
  }

  /**
   * The offset computation of populateSourceMap: each function's virtual
   * offset is the running total of the bytecode sizes before it, kept in a
   * 32-bit counter.
   */
  method FunctionOffsets(sizes: seq<nat>) returns (offsets: seq<nat>)
    ensures |offsets| == |sizes|
    ensures forall i :: 0 <= i < |sizes| ==> offsets[i] == Sum(sizes[..i]) % Uint32Modulus
  {
    offsets := [];
    var offset: nat := 0;
    var k := 0;
    while k < |sizes|
      invariant 0 <= k <= |sizes|
      invariant |offsets| == k
      invariant offset == Sum(sizes[..k]) % Uint32Modulus
      invariant forall i :: 0 <= i < k ==> offsets[i] == Sum(sizes[..i]) % Uint32Modulus
    {
      offsets := offsets + [offset];
      assert sizes[..k + 1][..k] == sizes[..k];
      offset := (offset + sizes[k]) % Uint32Modulus;
      k := k + 1;
    }
  }

  /** The first function starts at 0 and each next one starts where the previous one's bytecode ends. */
  lemma OffsetsArePrefixSums(sizes: seq<nat>, offsets: seq<nat>, i: nat)
    requires |offsets| == |sizes|
    requires forall j :: 0 <= j < |sizes| ==> offsets[j] == Sum(sizes[..j]) % Uint32Modulus
    requires Sum(sizes) < Uint32Modulus
    requires i + 1 < |sizes|
    ensures offsets[0] == 0
    ensures offsets[i + 1] == offsets[i] + sizes[i]
  {
    assert sizes[..0] == [];
    var before, after := Sum(sizes[..i]), Sum(sizes[..i + 1]);
    assert after == before + sizes[i] by {
      assert sizes[..i + 1][..i] == sizes[..i];
    }
    SumPrefixBounded(sizes, i + 1);
    assert offsets[i] == before % Uint32Modulus && offsets[i + 1] == after % Uint32Modulus;
    Below32(before);
    Below32(after);
  }

  lemma Below32(x: nat)
    requires x < Uint32Modulus
    ensures x % Uint32Modulus == x
  {
  }

  lemma {:induction false} SumPrefixBounded(s: seq<nat>, k: nat)
    requires k <= |s|
    ensures Sum(s[..k]) <= Sum(s)
    decreases |s|
  {
    if k < |s| {
      assert s[..|s| - 1][..k] == s[..k];
      SumPrefixBounded(s[..|s| - 1], k);
    } else {
      assert s[..k] == s;
    }
  }

  /** A compiled function, as far as the layout is concerned. */
  datatype BytecodeFunction = BytecodeFunction(bytecodeSize: nat, opcodesAndJumpTables: seq<Byte>)

  /** The module's table of functions, filled in slot by slot. */
  class BytecodeModule {
    var functions: seq<Option<BytecodeFunction>>

    constructor (numFunctions: nat)
      ensures |functions| == numFunctions
      ensures forall i :: 0 <= i < numFunctions ==> functions[i].None?
    {
      functions := seq(numFunctions, _ => None);
    }

    function NumFunctions(): nat
      reads this
    {
      |functions|
    }

    /** setFunction: the index must be in bounds; only that slot changes. */
    method SetFunction(index: nat, f: BytecodeFunction)
      requires index < NumFunctions()
      modifies this
      ensures NumFunctions() == old(NumFunctions())
      ensures functions[index] == Some(f) && GetFunction(index) == f
      ensures forall j :: 0 <= j < |functions| && j != index ==> functions[j] == old(functions[j])
    {
      functions := functions[index := Some(f)];
    }

    /** getFunction: the index must be in bounds and the slot filled. */
    function GetFunction(index: nat): (f: BytecodeFunction)
      requires index < NumFunctions() && functions[index].Some?
      reads this
      ensures Some(f) == functions[index]
    {
      functions[index].value
    }

    /** populateSourceMap's offsets, over the filled function table. */
    method PopulateSourceMapOffsets() returns (offsets: seq<nat>)
      requires forall i :: 0 <= i < |functions| ==> functions[i].Some?
      ensures |offsets| == |functions|
      ensures forall i :: 0 <= i < |functions| ==>
        offsets[i] == Sum(Sizes(functions)[..i]) % Uint32Modulus
    {
      offsets := FunctionOffsets(Sizes(functions));
    }
  }

  function Sizes(fs: seq<Option<BytecodeFunction>>): (sizes: seq<nat>)
    requires forall i :: 0 <= i < |fs| ==> fs[i].Some?
    ensures |sizes| == |fs|
    ensures forall i :: 0 <= i < |fs| ==> sizes[i] == fs[i].value.bytecodeSize
  {
    seq(|fs|, i requires 0 <= i < |fs| => fs[i].value.bytecodeSize)
  }
}

/**
 * Hoisting of StartGenerator (lib/Optimizer/Scalar/HoistStartGenerator.cpp).
 *
 * An inner generator function whose generators are not yet lowered holds one
 * StartGenerator instruction; the pass moves the first one it meets, in block
 * order and then instruction order, to the very front of the entry block.
 */
module HoistStartGenerator {
  import opened Wrappers

  /** An instruction, identified by `id`; only whether it is a StartGenerator matters here. */
  datatype Inst = Inst(id: nat, isStartGenerator: bool)

  /** The function's body: its blocks in order, the entry block first. */
  class Function {
    var blocks: seq<seq<Inst>>
    /** Whether the function is the inner function of a generator. */
    const isInnerGenerator: bool

    constructor(blocks: seq<seq<Inst>>, isInnerGenerator: bool)
      ensures this.blocks == blocks && this.isInnerGenerator == isInnerGenerator
    {
      this.blocks := blocks;
      this.isInnerGenerator := isInnerGenerator;
    }
  }

  /** (b, i) is a StartGenerator and no StartGenerator comes before it in block, then instruction, order. */
  predicate FirstStartAt(blocks: seq<seq<Inst>>, b: int, i: int)
  {
    0 <= b < |blocks| && 0 <= i < |blocks[b]| && blocks[b][i].isStartGenerator &&
    (forall c, j :: 0 <= c < b && 0 <= j < |blocks[c]| ==> !blocks[c][j].isStartGenerator) &&
    (forall j :: 0 <= j < i ==> !blocks[b][j].isStartGenerator)
  }

  predicate HasStart(blocks: seq<seq<Inst>>)
  {
    exists b, i :: 0 <= b < |blocks| && 0 <= i < |blocks[b]| && blocks[b][i].isStartGenerator
  }

  /** The index of the first StartGenerator of a block. */
  function FindIn(insts: seq<Inst>): (r: Option<nat>)
    ensures r.Some? ==>
      r.value < |insts| && insts[r.value].isStartGenerator &&
      forall j :: 0 <= j < r.value ==> !insts[j].isStartGenerator
    ensures r.None? ==> forall j :: 0 <= j < |insts| ==> !insts[j].isStartGenerator
  {
    if insts == [] then None
    else if insts[0].isStartGenerator then Some(0)
    else
      match FindIn(insts[1..])
      case Some(i) => Some(i + 1)
      case None => None
  }

  /** The position of the first StartGenerator of the function. */
  function FindStart(blocks: seq<seq<Inst>>): (r: Option<(nat, nat)>)
    ensures r.Some? ==> r.value.0 < |blocks| && r.value.1 < |blocks[r.value.0]| && blocks[r.value.0][r.value.1].isStartGenerator
  {
    if blocks == [] then None
    else
      match FindIn(blocks[0])
      case Some(i) => Some((0, i))
      case None =>
        match FindStart(blocks[1..])
        case Some(p) => Some((p.0 + 1, p.1))
        case None => None
  }

  /** FindStart finds exactly the first StartGenerator, and nothing when there is none. */
  lemma {:induction false} FindStartMeaning(blocks: seq<seq<Inst>>)
    ensures FindStart(blocks).Some? ==> FirstStartAt(blocks, FindStart(blocks).value.0, FindStart(blocks).value.1)
    ensures FindStart(blocks).None? <==> !HasStart(blocks)
  {
    if blocks != [] {
      FindStartMeaning(blocks[1..]);
      if FindIn(blocks[0]).None? {
        if HasStart(blocks) {
          var b, i :| 0 <= b < |blocks| && 0 <= i < |blocks[b]| && blocks[b][i].isStartGenerator;
          assert b > 0;
          assert blocks[1..][b - 1] == blocks[b];
          assert HasStart(blocks[1..]);
        }
        if HasStart(blocks[1..]) {
          var b, i :| 0 <= b < |blocks[1..]| && 0 <= i < |blocks[1..][b]| && blocks[1..][b][i].isStartGenerator;
          assert blocks[b + 1] == blocks[1..][b];
        }
        if FindStart(blocks[1..]).Some? {
          var p := FindStart(blocks[1..]).value;
          forall c, j | 0 <= c < p.0 + 1 && 0 <= j < |blocks[c]| ensures !blocks[c][j].isStartGenerator {
            if c > 0 {
              assert blocks[c] == blocks[1..][c - 1];
            }
          }
        }
      }
    }
  }

  /** The first StartGenerator position is unique. */
  lemma FirstStartUnique(blocks: seq<seq<Inst>>, b: int, i: int, c: int, j: int)
    requires FirstStartAt(blocks, b, i) && FirstStartAt(blocks, c, j)
    ensures b == c && i == j
  {
  }

  /** The function with the instruction at (b, i) taken out. */
  function Erase(blocks: seq<seq<Inst>>, b: nat, i: nat): (r: seq<seq<Inst>>)
    requires b < |blocks| && i < |blocks[b]|
    ensures |r| == |blocks| && |r[b]| == |blocks[b]| - 1
    ensures forall c :: 0 <= c < |blocks| && c != b ==> r[c] == blocks[c]
    ensures forall j :: 0 <= j < |r[b]| ==> r[b][j] == if j < i then blocks[b][j] else blocks[b][j + 1]
  {
    blocks[b := blocks[b][..i] + blocks[b][i + 1..]]
  }

  /** The function with the instruction at (b, i) moved to the front of the entry block. */
  function MoveToEntryFront(blocks: seq<seq<Inst>>, b: nat, i: nat): (r: seq<seq<Inst>>)
    requires b < |blocks| && i < |blocks[b]|
    ensures |r| == |blocks| && r[0] != [] && r[0][0] == blocks[b][i]
    ensures forall c :: 0 < c < |blocks| && c != b ==> r[c] == blocks[c]
    ensures |r[0]| == |blocks[0]| + (if b == 0 then 0 else 1)
  {
    var e := Erase(blocks, b, i);
    e[0 := [blocks[b][i]] + e[0]]
  }

  /**
   * The moved instruction heads the entry block, and taking it back out leaves
   * every other instruction in its block and in its relative order.
   */
  lemma MoveKeepsOthers(blocks: seq<seq<Inst>>, b: nat, i: nat)
    requires b < |blocks| && i < |blocks[b]|
    ensures var r := MoveToEntryFront(blocks, b, i);
      |r| == |blocks| && r[0] != [] && r[0][0] == blocks[b][i] && Erase(r, 0, 0) == Erase(blocks, b, i)
  {
    var r := MoveToEntryFront(blocks, b, i);
    var e := Erase(blocks, b, i);
    assert r[0][1..] == e[0];
    assert r[0][..0] + r[0][1..] == e[0];
    assert r[0 := e[0]] == e;
  }

  /** runOnFunction, as a function of the blocks before the pass: whether it changed anything, and the blocks after. */
  function Hoisted(blocks: seq<seq<Inst>>, generatorsLowered: bool, isInnerGenerator: bool): (r: (bool, seq<seq<Inst>>))
    ensures generatorsLowered || !isInnerGenerator ==> r == (false, blocks)
    ensures r.0 <==> !generatorsLowered && isInnerGenerator && HasStart(blocks)
    ensures !r.0 ==> r.1 == blocks
    ensures r.0 ==> exists b, i :: FirstStartAt(blocks, b, i) && r.1 == MoveToEntryFront(blocks, b, i)
  {
    FindStartMeaning(blocks);
    if generatorsLowered || !isInnerGenerator then (false, blocks)
    else
      match FindStart(blocks)
      case None => (false, blocks)
      case Some(p) => (true, MoveToEntryFront(blocks, p.0, p.1))
  }

  /** HoistStartGenerator::runOnFunction. */
  method RunOnFunction(f: Function, generatorsLowered: bool) returns (changed: bool)
    modifies f
    ensures (changed, f.blocks) == Hoisted(old(f.blocks), generatorsLowered, f.isInnerGenerator)
  {
    FindStartMeaning(f.blocks);
    if generatorsLowered {
      return false;
    }
    if !f.isInnerGenerator {
      return false;
    }
    var b := 0;
    while b < |f.blocks|
      invariant b <= |f.blocks| && f.blocks == old(f.blocks)
      invariant forall c, j :: 0 <= c < b && 0 <= j < |f.blocks[c]| ==> !f.blocks[c][j].isStartGenerator
    {
      var i := 0;
      while i < |f.blocks[b]|
        invariant i <= |f.blocks[b]| && f.blocks == old(f.blocks)
        invariant forall j :: 0 <= j < i ==> !f.blocks[b][j].isStartGenerator
      {
        if f.blocks[b][i].isStartGenerator {
          assert FirstStartAt(f.blocks, b, i);
          var p := FindStart(f.blocks).value;
          FirstStartUnique(f.blocks, b, i, p.0, p.1);
          f.blocks := MoveToEntryFront(f.blocks, b, i);
          return true;
        }
        i := i + 1;
      }
      b := b + 1;
    }
    return false;
  }
}

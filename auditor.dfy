/**
 * The auditing pass (lib/Optimizer/Scalar/Auditor.cpp).
 *
 * The pass changes nothing in the IR: it counts, in global statistics, the
 * call instructions by where their callee comes from, the instructions by
 * their inferred type, and the functions audited.
 */
module Auditor {

  /** The value kinds the callee classification distinguishes; every other kind is `OtherKind`. */
  datatype ValueKind =
    | CreateFunctionKind | LoadPropertyKind | LoadFrameKind | LoadStackKind
    | PhiKind | JSDynamicParamKind | CallKind | OtherKind

  /** Where a call's callee comes from: one statistic each. */
  datatype CalleeCategory =
    | FromCreate | FromProp | FromFrame | FromStack | FromPhi | FromParameter | FromCall | FromOther

  /** The primitive types an IR type may include. */
  datatype Prim = Empty | Uninit | Undefined | Null | Boolean | String | Number | BigInt | Object | Environment

  /** An inferred type: the set of primitive types a value may have. */
  type Type = set<Prim>

  /** The instruction-type statistics. */
  datatype TypeCategory = TUndefined | TNull | TBool | TString | TNumber | TObject | TAny | TOther

  /** An instruction: its kind, the kind of its callee when it is a call, and its inferred type. */
  datatype Inst = Inst(kind: ValueKind, calleeKind: ValueKind, ty: Type)

  /** The types a JavaScript value may have; `canBeAny` holds when a type includes all of them. */
  const AnyPrims: set<Prim> := {Undefined, Null, Boolean, String, Number, BigInt, Object}

  /** The switch over the callee's kind. */
  function CalleeOf(kind: ValueKind): (c: CalleeCategory)
    ensures c == FromOther <==> kind == OtherKind
  {
    match kind
    case CreateFunctionKind => FromCreate
    case LoadPropertyKind => FromProp
    case LoadFrameKind => FromFrame
    case LoadStackKind => FromStack
    case PhiKind => FromPhi
    case JSDynamicParamKind => FromParameter
    case CallKind => FromCall
    case OtherKind => FromOther
  }

  /** The chain of type tests, in the source's order. */
  function TypeOf(t: Type): (c: TypeCategory)
    ensures c == TAny <==> AnyPrims <= t
    ensures c == TOther <==>
      (t != {Undefined} && t != {Null} && t != {Boolean} && t != {String} &&
       t != {Number} && t != {Object} && !(AnyPrims <= t))
  {
    if t == {Undefined} then TUndefined
    else if t == {Null} then TNull
    else if t == {Boolean} then TBool
    else if t == {String} then TString
    else if t == {Number} then TNumber
    else if t == {Object} then TObject
    else if AnyPrims <= t then TAny
    else TOther
  }

  /** The call instructions of a block whose callee falls in `c`. */
  function CallsIn(insts: seq<Inst>, c: CalleeCategory): nat
  {
    if insts == [] then 0
    else
      var n := |insts| - 1;
      CallsIn(insts[..n], c) + (if insts[n].kind == CallKind && CalleeOf(insts[n].calleeKind) == c then 1 else 0)
  }

  /** The call instructions of a block. */
  function AllCallsIn(insts: seq<Inst>): nat
  {
    if insts == [] then 0
    else
      var n := |insts| - 1;
      AllCallsIn(insts[..n]) + (if insts[n].kind == CallKind then 1 else 0)
  }

  /** The instructions of a block whose type falls in `c`. */
  function TypedIn(insts: seq<Inst>, c: TypeCategory): nat
  {
    if insts == [] then 0
    else
      var n := |insts| - 1;
      TypedIn(insts[..n], c) + (if TypeOf(insts[n].ty) == c then 1 else 0)
  }

  function CallsInBlocks(blocks: seq<seq<Inst>>, c: CalleeCategory): nat
  {
    if blocks == [] then 0 else CallsInBlocks(blocks[..|blocks| - 1], c) + CallsIn(blocks[|blocks| - 1], c)
  }

  function AllCallsInBlocks(blocks: seq<seq<Inst>>): nat
  {
    if blocks == [] then 0 else AllCallsInBlocks(blocks[..|blocks| - 1]) + AllCallsIn(blocks[|blocks| - 1])
  }

  function TypedInBlocks(blocks: seq<seq<Inst>>, c: TypeCategory): nat
  {
    if blocks == [] then 0 else TypedInBlocks(blocks[..|blocks| - 1], c) + TypedIn(blocks[|blocks| - 1], c)
  }

  function InstCount(blocks: seq<seq<Inst>>): nat
  {
    if blocks == [] then 0 else InstCount(blocks[..|blocks| - 1]) + |blocks[|blocks| - 1]|
  }

  /** The callee counters of a block added up. */
  function CalleeTotal(insts: seq<Inst>): nat
  {
    CallsIn(insts, FromCreate) + CallsIn(insts, FromProp) + CallsIn(insts, FromFrame) + CallsIn(insts, FromStack) +
    CallsIn(insts, FromPhi) + CallsIn(insts, FromParameter) + CallsIn(insts, FromCall) + CallsIn(insts, FromOther)
  }

  /** The type counters of a block added up. */
  function TypeTotal(insts: seq<Inst>): nat
  {
    TypedIn(insts, TUndefined) + TypedIn(insts, TNull) + TypedIn(insts, TBool) + TypedIn(insts, TString) +
    TypedIn(insts, TNumber) + TypedIn(insts, TObject) + TypedIn(insts, TAny) + TypedIn(insts, TOther)
  }

  /** Every call is counted in exactly one callee category. */
  lemma {:induction false} CalleeCategoriesPartition(insts: seq<Inst>)
    ensures CalleeTotal(insts) == AllCallsIn(insts)
  {
    if insts != [] {
      CalleeCategoriesPartition(insts[..|insts| - 1]);
    }
  }

  /** Every instruction is counted in exactly one type category. */
  lemma {:induction false} TypeCategoriesPartition(insts: seq<Inst>)
    ensures TypeTotal(insts) == |insts|
  {
    if insts != [] {
      TypeCategoriesPartition(insts[..|insts| - 1]);
    }
  }

  /** Over a whole function, too, the callee counters add up to the calls and the type counters to the instructions. */
  lemma {:induction false} FunctionPartition(blocks: seq<seq<Inst>>)
    ensures CallsInBlocks(blocks, FromCreate) + CallsInBlocks(blocks, FromProp) + CallsInBlocks(blocks, FromFrame) +
      CallsInBlocks(blocks, FromStack) + CallsInBlocks(blocks, FromPhi) + CallsInBlocks(blocks, FromParameter) +
      CallsInBlocks(blocks, FromCall) + CallsInBlocks(blocks, FromOther) == AllCallsInBlocks(blocks)
    ensures TypedInBlocks(blocks, TUndefined) + TypedInBlocks(blocks, TNull) + TypedInBlocks(blocks, TBool) +
      TypedInBlocks(blocks, TString) + TypedInBlocks(blocks, TNumber) + TypedInBlocks(blocks, TObject) +
      TypedInBlocks(blocks, TAny) + TypedInBlocks(blocks, TOther) == InstCount(blocks)
  {
    if blocks != [] {
      FunctionPartition(blocks[..|blocks| - 1]);
      CalleeCategoriesPartition(blocks[|blocks| - 1]);
      TypeCategoriesPartition(blocks[|blocks| - 1]);
    }
  }

  /** The pass's global statistics. */
  class Statistics {
    var calls: nat
    var callsBy: map<CalleeCategory, nat>
    var typesBy: map<TypeCategory, nat>
    var functions: nat

    /** Every counter exists. */
    ghost predicate Valid()
      reads this
    {
      (forall c: CalleeCategory :: c in callsBy) && (forall t: TypeCategory :: t in typesBy)
    }

    constructor()
      ensures Valid() && calls == 0 && functions == 0
      ensures forall c: CalleeCategory :: callsBy[c] == 0
      ensures forall t: TypeCategory :: typesBy[t] == 0
    {
      calls := 0;
      functions := 0;
      callsBy := map[FromCreate := 0, FromProp := 0, FromFrame := 0, FromStack := 0,
                     FromPhi := 0, FromParameter := 0, FromCall := 0, FromOther := 0];
      typesBy := map[TUndefined := 0, TNull := 0, TBool := 0, TString := 0,
                     TNumber := 0, TObject := 0, TAny := 0, TOther := 0];
      new;
      forall c: CalleeCategory ensures c in callsBy {
        assert c.FromCreate? || c.FromProp? || c.FromFrame? || c.FromStack? ||
          c.FromPhi? || c.FromParameter? || c.FromCall? || c.FromOther?;
      }
      forall t: TypeCategory ensures t in typesBy {
        assert t.TUndefined? || t.TNull? || t.TBool? || t.TString? ||
          t.TNumber? || t.TObject? || t.TAny? || t.TOther?;
      }
    }

    /** One instruction of auditCallInstructions. */
    method AuditCall(inst: Inst)
      requires Valid()
      modifies this
      ensures Valid() && typesBy == old(typesBy) && functions == old(functions)
      ensures calls == old(calls) + AllCallsIn([inst])
      ensures forall c :: callsBy[c] == old(callsBy[c]) + CallsIn([inst], c)
    {
      assert [inst][..0] == [];
      if inst.kind == CallKind {
        calls := calls + 1;
        var c := CalleeOf(inst.calleeKind);
        callsBy := callsBy[c := callsBy[c] + 1];
      }
    }

    /** auditCallInstructions. */
    method AuditCallInstructions(blocks: seq<seq<Inst>>)
      requires Valid()
      modifies this
      ensures Valid() && typesBy == old(typesBy) && functions == old(functions)
      ensures calls == old(calls) + AllCallsInBlocks(blocks)
      ensures forall c :: callsBy[c] == old(callsBy[c]) + CallsInBlocks(blocks, c)
    {
      var b := 0;
      while b < |blocks|
        invariant b <= |blocks| && Valid() && typesBy == old(typesBy) && functions == old(functions)
        invariant calls == old(calls) + AllCallsInBlocks(blocks[..b])
        invariant forall c :: callsBy[c] == old(callsBy[c]) + CallsInBlocks(blocks[..b], c)
      {
        var i := 0;
        while i < |blocks[b]|
          invariant i <= |blocks[b]| && Valid() && typesBy == old(typesBy) && functions == old(functions)
          invariant calls == old(calls) + AllCallsInBlocks(blocks[..b]) + AllCallsIn(blocks[b][..i])
          invariant forall c :: callsBy[c] == old(callsBy[c]) + CallsInBlocks(blocks[..b], c) + CallsIn(blocks[b][..i], c)
        {
          assert blocks[b][..i + 1][..i] == blocks[b][..i];
          AuditCall(blocks[b][i]);
          i := i + 1;
        }
        assert blocks[b][..i] == blocks[b];
        assert blocks[..b + 1][..b] == blocks[..b];
        b := b + 1;
      }
      assert blocks[..b] == blocks;
    }

    /** One instruction of auditInferredTypes. */
    method AuditType(inst: Inst)
      requires Valid()
      modifies this
      ensures Valid() && calls == old(calls) && callsBy == old(callsBy) && functions == old(functions)
      ensures forall t :: typesBy[t] == old(typesBy[t]) + TypedIn([inst], t)
    {
      assert [inst][..0] == [];
      var t := TypeOf(inst.ty);
      typesBy := typesBy[t := typesBy[t] + 1];
    }

    /** auditInferredTypes. */
    method AuditInferredTypes(blocks: seq<seq<Inst>>)
      requires Valid()
      modifies this
      ensures Valid() && calls == old(calls) && callsBy == old(callsBy) && functions == old(functions)
      ensures forall t :: typesBy[t] == old(typesBy[t]) + TypedInBlocks(blocks, t)
    {
      var b := 0;
      while b < |blocks|
        invariant b <= |blocks| && Valid() && calls == old(calls) && callsBy == old(callsBy) && functions == old(functions)
        invariant forall t :: typesBy[t] == old(typesBy[t]) + TypedInBlocks(blocks[..b], t)
      {
        var i := 0;
        while i < |blocks[b]|
          invariant i <= |blocks[b]| && Valid() && calls == old(calls) && callsBy == old(callsBy) && functions == old(functions)
          invariant forall t :: typesBy[t] == old(typesBy[t]) + TypedInBlocks(blocks[..b], t) + TypedIn(blocks[b][..i], t)
        {
          assert blocks[b][..i + 1][..i] == blocks[b][..i];
          AuditType(blocks[b][i]);
          i := i + 1;
        }
        assert blocks[b][..i] == blocks[b];
        assert blocks[..b + 1][..b] == blocks[..b];
        b := b + 1;
      }
      assert blocks[..b] == blocks;
    }

    /** Auditor::runOnFunction: audits the calls, then the types, counts the function, and reports no change. */
    method RunOnFunction(blocks: seq<seq<Inst>>) returns (changed: bool)
      requires Valid()
      modifies this
      ensures Valid() && !changed && functions == old(functions) + 1
      ensures calls == old(calls) + AllCallsInBlocks(blocks)
      ensures forall c :: callsBy[c] == old(callsBy[c]) + CallsInBlocks(blocks, c)
      ensures forall t :: typesBy[t] == old(typesBy[t]) + TypedInBlocks(blocks, t)
    {
      AuditCallInstructions(blocks);
      AuditInferredTypes(blocks);
      functions := functions + 1;
      return false;
    }
  }
}

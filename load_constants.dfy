/**
 * The LoadConstants lowering pass of the static-Hermes backend: every
 * literal operand that the code generator cannot encode as an immediate is
 * replaced by the result of a load instruction inserted right before its
 * user (or, for a phi, before the terminator of the incoming block).
 *
 * A lowered block is kept as its original instructions, each with the list
 * of loads inserted in front of it (`Layout`); `Flatten` gives the block as
 * the IR lists it. Instruction identities are numbers, and new loads take
 * numbers from a counter that starts above every existing one.
 */
module LoadConstants {
  import opened Wrappers
  import opened IREval

  /** An operand: a literal (the global object is a literal too) or the result of an instruction. */
  datatype Value = Lit(lit: Literal) | GlobalObject | Ref(id: nat)

  predicate IsLiteral(v: Value) { v.Lit? || v.GlobalObject? }

  /** The instruction kinds the table distinguishes; every other kind is `OtherKind`. */
  datatype Kind =
    | HBCLoadConst | HBCGetGlobalObject | LoadParam | HBCAllocObjectFromBuffer
    | AllocArray | AllocFastArray | CacheNewObject | SwitchKind
    | DefineOwnProperty | DefineNewOwnProperty
    | StoreProperty | TryStoreGlobalProperty | StorePropertyWithReceiver
    | LoadProperty | TryLoadGlobalProperty
    | DefineOwnGetterSetter | CreateRegExp | SwitchImm
    | Call | CallBuiltin | BranchIfBuiltin | GetBuiltinClosure | IteratorClose
    | DeclareGlobalVar | DirectEval | GetTemplateObject | PrLoad | PrStore
    | NativeCall | CheckedTypeCast | ThrowIf | LIRResolveScope | TypeOfIs
    | OtherKind(name: string)

  /**
   * The named operand slot an operand index stands for in its instruction
   * class (`PropertyIdx`, `IsEnumerableIdx`, ...). `Key` covers the indices
   * from CacheNewObject's FirstKeyIdx on, `Case` those from SwitchImm's
   * FirstCaseIdx on, and `AfterThis` the index following a call's `this`.
   */
  datatype Role =
    | Plain | Key | Property | IsEnumerable | IsStrict | MinValue | Size | Case
    | Callee | NewTarget | This | Builtin | BuiltinIndex | IgnoreInnerException
    | Name | StrictCaller | TemplateObjID | Dup | PropIndex | PropName | NonPointer
    | Signature | SpecifiedType | InvalidTypes | NumLevels | Types
    | CalleeIsAlwaysClosure | AfterThis

  datatype PhiEntry = PhiEntry(value: Value, block: nat)

  /** `metroRequire` is the call attribute of that name, looked up in the module. */
  datatype Inst =
    | Phi(id: nat, entries: seq<PhiEntry>)
    | Op(id: nat, kind: Kind, operands: seq<Value>, roles: seq<Role>, metroRequire: bool)

  datatype Fn = Fn(order: seq<nat>, blocks: map<nat, seq<Inst>>)

  predicate IsDefineKind(k: Kind) { k == DefineOwnProperty || k == DefineNewOwnProperty }

  predicate IsStoreKind(k: Kind)
  {
    k == StoreProperty || k == TryStoreGlobalProperty || k == StorePropertyWithReceiver
  }

  predicate IsLoadKind(k: Kind) { k == LoadProperty || k == TryLoadGlobalProperty }

  predicate IsCallKind(k: Kind) { k == Call || k == CallBuiltin }

  /** The kinds all of whose operands stay literal. */
  predicate AllLiteralKind(k: Kind)
  {
    k == HBCLoadConst || k == LoadParam || k == HBCAllocObjectFromBuffer ||
    k == AllocArray || k == AllocFastArray
  }

  predicate IsString(v: Value) { v.Lit? && v.lit.LString? }

  /** A number literal that is a valid array index: an integer in [0, 2^32 - 2]. */
  predicate IsArrayIndex(v: Value)
  {
    v.Lit? && v.lit.LNumber? && v.lit.n.Finite? &&
    v.lit.n.value == v.lit.n.value.Floor as real &&
    0 <= v.lit.n.value.Floor < 0xFFFF_FFFF
  }

  /** The operand in the first slot named `role`, if any. */
  function RoleOperand(ops: seq<Value>, roles: seq<Role>, role: Role): (r: Option<Value>)
    requires |ops| == |roles|
  {
    if roles == [] then None
    else if roles[0] == role then Some(ops[0])
    else
      RoleOperand(ops[1..], roles[1..], role)
  }

  /** `RoleOperand` finds the operand in the first slot named `role`, and nothing when there is none. */
  lemma {:induction false} RoleOperandFirst(ops: seq<Value>, roles: seq<Role>, role: Role)
    requires |ops| == |roles|
    ensures var r := RoleOperand(ops, roles, role);
      (r.None? <==> role !in roles) &&
      (r.Some? ==> exists m :: 0 <= m < |ops| && roles[m] == role && ops[m] == r.value && role !in roles[..m])
  {
    if roles != [] && roles[0] != role {
      RoleOperandFirst(ops[1..], roles[1..], role);
      var r := RoleOperand(ops[1..], roles[1..], role);
      if r.Some? {
        var m :| 0 <= m < |ops| - 1 && roles[1..][m] == role && ops[1..][m] == r.value && role !in roles[1..][..m];
        assert roles[..m + 1] == [roles[0]] + roles[1..][..m];
        assert roles[m + 1] == role && ops[m + 1] == r.value && role !in roles[..m + 1];
      }
    } else if roles != [] {
      assert roles[..0] == [];
    }
  }

  /** getIsEnumerable: the IsEnumerable operand is the literal `true`. */
  predicate Enumerable(i: Inst)
    requires i.Op? && |i.operands| == |i.roles|
  {
    RoleOperand(i.operands, i.roles, IsEnumerable) == Some(Lit(LBool(true)))
  }

  /** Whether operand `k` of `i` must stay a literal (operandMustBeLiteral). */
  function MustBeLiteral(i: Inst, k: nat): (r: bool)
    requires i.Op? && |i.operands| == |i.roles| && k < |i.operands|
  {
    var kind, role, v := i.kind, i.roles[k], i.operands[k];
    if AllLiteralKind(kind) then true
    else if kind == CacheNewObject then role == Key
    else if kind == SwitchKind && k > 0 then true
    else if IsDefineKind(kind) then
      if role == Property &&
         (kind == DefineNewOwnProperty ||
          (IsArrayIndex(v) && Enumerable(i)) ||
          (IsString(v) && Enumerable(i)))
      then true
      else role == IsEnumerable
    else if IsStoreKind(kind) && kind != StorePropertyWithReceiver && role == Property && IsString(v) then true
    else if kind == StorePropertyWithReceiver && role == IsStrict then true
    else if IsLoadKind(kind) && role == Property && IsString(v) then true
    else if kind == LoadProperty && role == Property && IsArrayIndex(v) then true
    else if kind == DefineOwnGetterSetter && role == IsEnumerable then true
    else if kind == CreateRegExp then true
    else if kind == SwitchImm && (role == MinValue || role == Size || role == Case) then true
    else if kind == CallBuiltin && (role == Callee || role == NewTarget || role == This) then true
    else if kind == BranchIfBuiltin && role == Builtin then true
    else if kind == GetBuiltinClosure && role == BuiltinIndex then true
    else if kind == IteratorClose && role == IgnoreInnerException then true
    else if kind == DeclareGlobalVar && role == Name then true
    else if kind == DirectEval && role == StrictCaller then true
    else if kind == GetTemplateObject && (role == TemplateObjID || role == Dup) then true
    else if kind == PrLoad && (role == PropIndex || role == PropName) then true
    else if kind == PrStore && (role == PropIndex || role == PropName || role == NonPointer) then true
    else if kind == NativeCall && (role == Callee || role == Signature) then true
    else if kind == CheckedTypeCast && role == SpecifiedType then true
    else if kind == ThrowIf && role == InvalidTypes then true
    else if kind == LIRResolveScope && role == NumLevels then true
    else if kind == TypeOfIs && role == Types then true
    else if IsCallKind(kind) && role == CalleeIsAlwaysClosure then true
    else if IsCallKind(kind) && i.metroRequire && role == AfterThis then true
    else false
  }

  /** Whether the pass gives operand (or phi entry) `k` of `i` a load. */
  predicate Lowerable(i: Inst, k: nat)
  {
    match i
    case Phi(_, entries) => k < |entries| && IsLiteral(entries[k].value)
    case Op(_, _, ops, roles, _) =>
      |ops| == |roles| && k < |ops| && IsLiteral(ops[k]) && !MustBeLiteral(i, k)
  }

  predicate NeedsLoads(i: Inst)
  {
    exists k :: 0 <= k < Arity(i) && Lowerable(i, k)
  }

  function Arity(i: Inst): nat
  {
    if i.Phi? then |i.entries| else |i.operands|
  }

  // Rows of the operandMustBeLiteral table, as whole-kind rules.

  /** Immediate-only instructions and regular expressions keep every literal operand. */
  lemma AllLiteralKindsKeepLiterals(i: Inst, k: nat)
    requires i.Op? && |i.operands| == |i.roles| && k < |i.operands|
    requires AllLiteralKind(i.kind) || i.kind == CreateRegExp
    ensures MustBeLiteral(i, k)
  {
  }

  /** A switch keeps its case values (every operand after the first) and lowers its input. */
  lemma SwitchKeepsCases(i: Inst, k: nat)
    requires i.Op? && |i.operands| == |i.roles| && k < |i.operands| && i.kind == SwitchKind
    ensures MustBeLiteral(i, k) <==> k > 0
  {
  }

  /**
   * Defining a property keeps its enumerable flag, and keeps the property
   * name when the instruction is DefineNewOwnProperty or when the property
   * is enumerable and the name is a string or a valid array index.
   */
  lemma DefinePropertyRule(i: Inst, k: nat)
    requires i.Op? && |i.operands| == |i.roles| && k < |i.operands| && IsDefineKind(i.kind)
    ensures MustBeLiteral(i, k) <==>
      i.roles[k] == IsEnumerable ||
      (i.roles[k] == Property &&
       (i.kind == DefineNewOwnProperty || (Enumerable(i) && (IsString(i.operands[k]) || IsArrayIndex(i.operands[k])))))
  {
  }

  /**
   * Stores and loads keep a string property name (except the store with a
   * receiver, which keeps its strictness flag instead); a plain property
   * load also keeps an array-index property.
   */
  lemma PropertyAccessRule(i: Inst, k: nat)
    requires i.Op? && |i.operands| == |i.roles| && k < |i.operands|
    requires IsStoreKind(i.kind) || IsLoadKind(i.kind)
    ensures MustBeLiteral(i, k) <==>
      (i.kind != StorePropertyWithReceiver && i.roles[k] == Property && IsString(i.operands[k])) ||
      (i.kind == StorePropertyWithReceiver && i.roles[k] == IsStrict) ||
      (i.kind == LoadProperty && i.roles[k] == Property && IsArrayIndex(i.operands[k]))
  {
  }

  /** A plain call keeps its always-a-closure flag, and the operand after `this` of a metro require. */
  lemma CallRule(i: Inst, k: nat)
    requires i.Op? && |i.operands| == |i.roles| && k < |i.operands| && i.kind == Call
    ensures MustBeLiteral(i, k) <==>
      i.roles[k] == CalleeIsAlwaysClosure || (i.metroRequire && i.roles[k] == AfterThis)
  {
  }

  /** Instructions the table does not name keep no literal operand. */
  lemma OtherKindsKeepNothing(i: Inst, k: nat)
    requires i.Op? && |i.operands| == |i.roles| && k < |i.operands| && i.kind.OtherKind?
    ensures !MustBeLiteral(i, k)
  {
    var kind := i.kind;
    assert !AllLiteralKind(kind) && !IsDefineKind(kind) && !IsStoreKind(kind) && !IsLoadKind(kind) && !IsCallKind(kind);
    assert kind != CacheNewObject && kind != SwitchKind && kind != StorePropertyWithReceiver && kind != LoadProperty;
  }

  /** An operand in an ordinary slot is lowered unless its instruction keeps all (or all later) operands. */
  lemma PlainOperandsLowered(i: Inst, k: nat)
    requires i.Op? && |i.operands| == |i.roles| && k < |i.operands| && i.roles[k] == Plain
    requires !AllLiteralKind(i.kind) && i.kind != CreateRegExp && !(i.kind == SwitchKind && k > 0)
    ensures !MustBeLiteral(i, k)
  {
  }

  /** A load the pass creates: the literal it materialises and its number. */
  datatype Load = Load(value: Value, id: nat)

  /** createLoadLiteral: the global object has its own load, every other literal uses HBCLoadConst. */
  function LoadInst(ld: Load): (r: Inst)
    ensures r.Op? && r.id == ld.id
    ensures r.kind == HBCGetGlobalObject <==> ld.value == GlobalObject
    ensures r.kind == HBCLoadConst <==> ld.value != GlobalObject
    ensures ld.value != GlobalObject ==> r.operands == [ld.value]
  {
    if ld.value.GlobalObject? then Op(ld.id, HBCGetGlobalObject, [], [], false)
    else Op(ld.id, HBCLoadConst, [ld.value], [Plain], false)
  }

  /** A load has nothing to lower itself, so a later visit of an inserted load changes nothing. */
  lemma LoadsNeedNothing(ld: Load)
    ensures !NeedsLoads(LoadInst(ld))
  {
    var i := LoadInst(ld);
    if i.kind == HBCLoadConst {
      assert !Lowerable(i, 0);
    }
  }

  /** Whether operand `k` may stay as it is once earlier operands have been replaced. */
  lemma DecisionStable(orig: Inst, cur: Inst, k: nat)
    requires orig.Op? && |orig.operands| == |orig.roles| && k < |orig.operands|
    requires cur.Op? && cur.kind == orig.kind && cur.roles == orig.roles
    requires cur.metroRequire == orig.metroRequire && |cur.operands| == |orig.operands|
    requires cur.operands[k] == orig.operands[k]
    requires IsDefineKind(orig.kind) ==> Enumerable(cur) == Enumerable(orig)
    ensures MustBeLiteral(cur, k) == MustBeLiteral(orig, k)
  {
  }

  /** Operands in IsEnumerable slots are all that `Enumerable` looks at. */
  lemma {:induction false} RoleOperandStable(a: seq<Value>, b: seq<Value>, roles: seq<Role>, role: Role)
    requires |a| == |roles| && |b| == |roles|
    requires forall m :: 0 <= m < |roles| && roles[m] == role ==> a[m] == b[m]
    ensures RoleOperand(a, roles, role) == RoleOperand(b, roles, role)
  {
    if roles != [] && roles[0] != role {
      forall m | 0 <= m < |roles| - 1 && roles[1..][m] == role ensures a[1..][m] == b[1..][m] {
        assert roles[m + 1] == role;
      }
      RoleOperandStable(a[1..], b[1..], roles[1..], role);
    }
  }

  // ---------------------------------------------------------------------
  // The lowered function.

  /** Each original instruction together with the loads inserted before it. */
  datatype Layout = Layout(code: map<nat, seq<Inst>>, pre: map<nat, seq<seq<Load>>>)

  ghost predicate WellFormed(fn: Fn)
  {
    NoRepeats(fn.order) &&
    (forall b :: b in fn.blocks <==> b in fn.order) &&
    BlocksWellFormed(fn)
  }

  /** `order` lists no block twice (a function's block list). */
  ghost predicate NoRepeats(order: seq<nat>)
  {
    order == [] || (NoRepeats(order[..|order| - 1]) && order[|order| - 1] !in order[..|order| - 1])
  }

  lemma {:induction false} NoRepeatsPrefix(order: seq<nat>, i: nat)
    requires NoRepeats(order) && i < |order|
    ensures order[i] !in order[..i]
  {
    var n := |order| - 1;
    if i < n {
      NoRepeatsPrefix(order[..n], i);
      assert order[..n][..i] == order[..i];
    }
  }

  /** Every block is well formed; the part of `WellFormed` that one block's lowering needs. */
  ghost predicate BlocksWellFormed(fn: Fn)
  {
    forall b :: b in fn.blocks ==> BlockWellFormed(fn, fn.blocks[b])
  }

  /** A block ends with its terminator, operands have slots, and phi entries name blocks. */
  ghost predicate BlockWellFormed(fn: Fn, blk: seq<Inst>)
  {
    |blk| > 0 &&
    forall j :: 0 <= j < |blk| ==> InstWellFormed(fn, blk[j])
  }

  ghost predicate InstWellFormed(fn: Fn, i: Inst)
  {
    match i
    case Phi(_, entries) => forall k :: 0 <= k < |entries| ==> entries[k].block in fn.blocks
    case Op(_, _, ops, roles, _) => |ops| == |roles|
  }

  /** The layout has a code list and a load list per instruction of every block of `fn`. */
  ghost predicate Shaped(fn: Fn, l: Layout)
  {
    l.code.Keys == fn.blocks.Keys && l.pre.Keys == fn.blocks.Keys &&
    forall b :: b in fn.blocks ==> |l.code[b]| == |fn.blocks[b]| && |l.pre[b]| == |fn.blocks[b]|
  }

  /** The loads inserted before the terminator (the last instruction) of block `b`. */
  function TermPre(l: Layout, b: nat): seq<Load>
  {
    if b in l.pre && l.pre[b] != [] then l.pre[b][|l.pre[b]| - 1] else []
  }

  /** The instructions of a list of loads. */
  function Insts(loads: seq<Load>): (r: seq<Inst>)
    ensures |r| == |loads| && forall m :: 0 <= m < |loads| ==> r[m] == LoadInst(loads[m])
  {
    if loads == [] then [] else [LoadInst(loads[0])] + Insts(loads[1..])
  }

  /** `x` is the instruction of one of the loads in `pre`. */
  ghost predicate Inserted(pre: seq<seq<Load>>, x: Inst)
  {
    exists j, m :: 0 <= j < |pre| && 0 <= m < |pre[j]| && x == LoadInst(pre[j][m])
  }

  /** The block as the IR lists it: each instruction preceded by its loads. */
  function Flatten(pre: seq<seq<Load>>, code: seq<Inst>): (r: seq<Inst>)
    requires |pre| == |code|
    ensures |r| >= |code|
    ensures code != [] ==> r[|r| - 1] == code[|code| - 1]
  {
    if code == [] then [] else Insts(pre[0]) + [code[0]] + Flatten(pre[1..], code[1..])
  }

  /** The flattened block holds exactly the original instructions and the inserted loads. */
  lemma {:induction false} FlattenContents(pre: seq<seq<Load>>, code: seq<Inst>)
    requires |pre| == |code|
    ensures forall x :: x in Flatten(pre, code) <==> x in code || Inserted(pre, x)
  {
    if code != [] {
      FlattenContents(pre[1..], code[1..]);
      assert code == [code[0]] + code[1..];
      forall x ensures Inserted(pre, x) <==> x in Insts(pre[0]) || Inserted(pre[1..], x) {
        InsertedSplit(pre, x);
      }
    }
  }

  /** A load of `pre` is a load of its first group or of the rest. */
  lemma InsertedSplit(pre: seq<seq<Load>>, x: Inst)
    requires pre != []
    ensures Inserted(pre, x) <==> x in Insts(pre[0]) || Inserted(pre[1..], x)
  {
    if Inserted(pre, x) {
      var j, m :| 0 <= j < |pre| && 0 <= m < |pre[j]| && x == LoadInst(pre[j][m]);
      if j == 0 {
        assert x == Insts(pre[0])[m];
      } else {
        assert x == LoadInst(pre[1..][j - 1][m]);
      }
    }
    if x in Insts(pre[0]) {
      var m :| 0 <= m < |pre[0]| && x == Insts(pre[0])[m];
      assert x == LoadInst(pre[0][m]);
    }
    if Inserted(pre[1..], x) {
      var j, m :| 0 <= j < |pre[1..]| && 0 <= m < |pre[1..][j]| && x == LoadInst(pre[1..][j][m]);
      assert x == LoadInst(pre[j + 1][m]);
    }
  }

  /** The function the lowered layout stands for. */
  function Emit(fn: Fn, l: Layout): (g: Fn)
    requires WellFormed(fn) && Shaped(fn, l)
    ensures g.order == fn.order && g.blocks.Keys == fn.blocks.Keys
  {
    Fn(fn.order, map b | b in fn.blocks :: Flatten(l.pre[b], l.code[b]))
  }

  /** Loads go before instructions, so every emitted block still ends with its own terminator. */
  lemma EmitKeepsTerminators(fn: Fn, l: Layout)
    requires WellFormed(fn) && Shaped(fn, l)
    ensures forall b :: b in fn.blocks ==>
      Emit(fn, l).blocks[b] != [] && Emit(fn, l).blocks[b][|Emit(fn, l).blocks[b]| - 1] == l.code[b][|l.code[b]| - 1]
  {
    var g := Emit(fn, l);
    forall b | b in fn.blocks
      ensures g.blocks[b] != [] && g.blocks[b][|g.blocks[b]| - 1] == l.code[b][|l.code[b]| - 1]
    {
      assert BlockWellFormed(fn, fn.blocks[b]);
      assert g.blocks[b] == Flatten(l.pre[b], l.code[b]);
    }
  }

  /** Operand `k` of `orig` became `v`: a load of the literal placed in `pre`, or left as it was. */
  ghost predicate OperandLowered(orig: Inst, k: nat, v: Value, pre: seq<Load>)
    requires orig.Op? && k < |orig.operands|
  {
    if Lowerable(orig, k) then v.Ref? && Load(orig.operands[k], v.id) in pre
    else v == orig.operands[k]
  }

  ghost predicate SameOp(orig: Inst, now: Inst)
  {
    orig.Op? && now.Op? && now.id == orig.id && now.kind == orig.kind && now.roles == orig.roles &&
    now.metroRequire == orig.metroRequire && |now.operands| == |orig.operands|
  }

  ghost predicate OpLowered(orig: Inst, now: Inst, pre: seq<Load>)
    requires orig.Op?
  {
    SameOp(orig, now) &&
    forall k :: 0 <= k < |orig.operands| ==> OperandLowered(orig, k, now.operands[k], pre)
  }

  /** Phi entry `e` became value `v`: a load placed before the terminator of `e.block`, or unchanged. */
  ghost predicate EntryLowered(l: Layout, e: PhiEntry, v: Value)
  {
    if IsLiteral(e.value) then v.Ref? && Load(e.value, v.id) in TermPre(l, e.block)
    else v == e.value
  }

  ghost predicate PhiLowered(l: Layout, orig: Inst, now: Inst)
    requires orig.Phi?
  {
    now.Phi? && now.id == orig.id && |now.entries| == |orig.entries| &&
    forall k :: 0 <= k < |orig.entries| ==>
      now.entries[k].block == orig.entries[k].block &&
      EntryLowered(l, orig.entries[k], now.entries[k].value)
  }

  ghost predicate InstLowered(fn: Fn, l: Layout, b: nat, j: nat)
    requires Shaped(fn, l) && b in fn.blocks && j < |fn.blocks[b]|
  {
    var orig := fn.blocks[b][j];
    if orig.Phi? then PhiLowered(l, orig, l.code[b][j])
    else OpLowered(orig, l.code[b][j], l.pre[b][j])
  }

  ghost predicate BlockLowered(fn: Fn, l: Layout, b: nat)
    requires Shaped(fn, l) && b in fn.blocks
  {
    forall j :: 0 <= j < |fn.blocks[b]| ==> InstLowered(fn, l, b, j)
  }

  /** Every inserted instruction is a load numbered in [lo, hi). */
  ghost predicate LoadsIn(pre: seq<Load>, lo: nat, hi: nat)
  {
    forall m :: 0 <= m < |pre| ==> IsLiteral(pre[m].value) && lo <= pre[m].id < hi
  }

  ghost predicate BlockLoads(pre: seq<seq<Load>>, lo: nat, hi: nat)
  {
    forall j :: 0 <= j < |pre| ==> LoadsIn(pre[j], lo, hi)
  }

  ghost predicate AllLoads(l: Layout, lo: nat, hi: nat)
  {
    forall b :: b in l.pre ==> BlockLoads(l.pre[b], lo, hi)
  }

  /** Every inserted instruction is a load numbered `lo` or above, so unlike every original one. */
  ghost predicate FreshLoads(pre: seq<seq<Load>>, lo: nat)
  {
    forall j, m :: 0 <= j < |pre| && 0 <= m < |pre[j]| ==> IsLiteral(pre[j][m].value) && lo <= pre[j][m].id
  }

  /** `p2` only appends loads to the lists of `p1`. */
  ghost predicate PreGrows(p1: seq<seq<Load>>, p2: seq<seq<Load>>)
  {
    |p1| == |p2| && forall j :: 0 <= j < |p1| ==> p1[j] <= p2[j]
  }

  ghost predicate Grows(l1: Layout, l2: Layout)
  {
    l2.pre.Keys == l1.pre.Keys && forall b :: b in l1.pre ==> PreGrows(l1.pre[b], l2.pre[b])
  }

  /** Appending loads before instruction `j` of block `b` (the builder's insertion point). */
  function AddLoads(l: Layout, b: nat, j: nat, xs: seq<Load>): (r: Layout)
    requires b in l.pre && j < |l.pre[b]|
    ensures r.code == l.code && r.pre.Keys == l.pre.Keys
    ensures forall c :: c in l.pre ==> |r.pre[c]| == |l.pre[c]|
    ensures r.pre[b][j] == l.pre[b][j] + xs
  {
    l.(pre := l.pre[b := l.pre[b][j := l.pre[b][j] + xs]])
  }

  lemma AddLoadsGrows(l: Layout, b: nat, j: nat, xs: seq<Load>, lo: nat, hi: nat, hi2: nat)
    requires b in l.pre && j < |l.pre[b]| && AllLoads(l, lo, hi)
    requires LoadsIn(xs, hi, hi2) && lo <= hi <= hi2
    ensures Grows(l, AddLoads(l, b, j, xs)) && AllLoads(AddLoads(l, b, j, xs), lo, hi2)
  {
    var l2 := AddLoads(l, b, j, xs);
    forall c | c in l.pre ensures PreGrows(l.pre[c], l2.pre[c]) && BlockLoads(l2.pre[c], lo, hi2) {
      assert BlockLoads(l.pre[c], lo, hi);
      if c == b {
        forall m | 0 <= m < |l2.pre[c]| ensures LoadsIn(l2.pre[c][m], lo, hi2) {
          assert LoadsIn(l.pre[c][m], lo, hi);
        }
      }
    }
  }

  lemma EntryLoweredGrows(l1: Layout, l2: Layout, e: PhiEntry, v: Value)
    requires Grows(l1, l2) && EntryLowered(l1, e, v)
    ensures EntryLowered(l2, e, v)
  {
    if IsLiteral(e.value) && e.block in l1.pre && l1.pre[e.block] != [] {
      assert PreGrows(l1.pre[e.block], l2.pre[e.block]);
    }
  }

  lemma InstLoweredGrows(fn: Fn, l1: Layout, l2: Layout, b: nat, j: nat)
    requires Shaped(fn, l1) && Shaped(fn, l2) && b in fn.blocks && j < |fn.blocks[b]|
    requires Grows(l1, l2) && l2.code[b][j] == l1.code[b][j]
    requires InstLowered(fn, l1, b, j)
    ensures InstLowered(fn, l2, b, j)
  {
    var orig := fn.blocks[b][j];
    if orig.Phi? {
      forall k | 0 <= k < |orig.entries|
        ensures EntryLowered(l2, orig.entries[k], l2.code[b][j].entries[k].value)
      {
        EntryLoweredGrows(l1, l2, orig.entries[k], l1.code[b][j].entries[k].value);
      }
    } else {
      assert PreGrows(l1.pre[b], l2.pre[b]);
      assert l1.pre[b][j] <= l2.pre[b][j];
    }
  }

  lemma BlockLoweredGrows(fn: Fn, l1: Layout, l2: Layout, b: nat)
    requires Shaped(fn, l1) && Shaped(fn, l2) && b in fn.blocks
    requires Grows(l1, l2) && l2.code[b] == l1.code[b]
    requires BlockLowered(fn, l1, b)
    ensures BlockLowered(fn, l2, b)
  {
    forall j | 0 <= j < |fn.blocks[b]| ensures InstLowered(fn, l2, b, j) {
      InstLoweredGrows(fn, l1, l2, b, j);
    }
  }

  /** Replaces instruction `j` of block `b`. */
  function SetCode(l: Layout, b: nat, j: nat, now: Inst): (r: Layout)
    requires b in l.code && j < |l.code[b]|
    ensures r.pre == l.pre && r.code.Keys == l.code.Keys
    ensures forall c :: c in l.code ==> |r.code[c]| == |l.code[c]|
    ensures r.code[b][j] == now
    ensures forall c :: c in l.code && c != b ==> r.code[c] == l.code[c]
    ensures forall m :: 0 <= m < |l.code[b]| && m != j ==> r.code[b][m] == l.code[b][m]
  {
    l.(code := l.code[b := l.code[b][j := now]])
  }

  // ---------------------------------------------------------------------
  // The pass: each loop of `loadConstants` as a method whose invariant
  // says what its first steps achieved.

  /** One of the first `k` operands (or phi entries) of `i` can be lowered. */
  ghost predicate SomeLowerable(i: Inst, k: nat)
  {
    k > 0 && (SomeLowerable(i, k - 1) || Lowerable(i, k - 1))
  }

  lemma {:induction false} SomeLowerableExists(i: Inst, k: nat)
    ensures SomeLowerable(i, k) <==> exists m :: 0 <= m < k && Lowerable(i, m)
  {
    if SomeLowerable(i, k) {
      var m := SomeLowerableWitness(i, k);
    }
    if exists m :: 0 <= m < k && Lowerable(i, m) {
      var m :| 0 <= m < k && Lowerable(i, m);
      SomeLowerableFrom(i, k, m);
    }
  }

  /** A lowerable index below `k` when one of the first `k` is lowerable. */
  lemma {:induction false} SomeLowerableWitness(i: Inst, k: nat) returns (m: nat)
    requires SomeLowerable(i, k)
    ensures m < k && Lowerable(i, m)
  {
    if Lowerable(i, k - 1) {
      m := k - 1;
    } else {
      m := SomeLowerableWitness(i, k - 1);
    }
  }

  /** A lowerable index below `k` makes one of the first `k` lowerable. */
  lemma {:induction false} SomeLowerableFrom(i: Inst, k: nat, m: nat)
    requires m < k && Lowerable(i, m)
    ensures SomeLowerable(i, k)
  {
    if m < k - 1 {
      SomeLowerableFrom(i, k - 1, m);
    }
  }

  /** The operands before `k` are lowered, the others untouched. */
  ghost predicate OperandsUpTo(orig: Inst, now: Inst, loads: seq<Load>, k: nat)
    requires orig.Op? && k <= |orig.operands|
  {
    SameOp(orig, now) &&
    (forall m :: 0 <= m < k ==> OperandLowered(orig, m, now.operands[m], loads)) &&
    (forall m :: k <= m < |orig.operands| ==> now.operands[m] == orig.operands[m])
  }

  lemma OperandsUpToNext(orig: Inst, now: Inst, loads: seq<Load>, now2: Inst, loads2: seq<Load>, k: nat)
    requires orig.Op? && k < |orig.operands| && OperandsUpTo(orig, now, loads, k)
    requires SameOp(orig, now2) && loads <= loads2
    requires forall m :: 0 <= m < |orig.operands| && m != k ==> now2.operands[m] == now.operands[m]
    requires OperandLowered(orig, k, now2.operands[k], loads2)
    ensures OperandsUpTo(orig, now2, loads2, k + 1)
  {
    forall m | 0 <= m < k ensures OperandLowered(orig, m, now2.operands[m], loads2) {
      assert OperandLowered(orig, m, now.operands[m], loads);
    }
  }

  /** Replacing an operand that is not in the IsEnumerable slot keeps `Enumerable`. */
  lemma EnumerableKept(orig: Inst, now: Inst, now2: Inst, k: nat)
    requires orig.Op? && |orig.operands| == |orig.roles| && k < |orig.operands| && IsDefineKind(orig.kind)
    requires SameOp(orig, now) && SameOp(orig, now2) && now.operands[k] == orig.operands[k]
    requires Lowerable(orig, k)
    requires forall m :: 0 <= m < |orig.operands| && m != k ==> now2.operands[m] == now.operands[m]
    ensures Enumerable(now2) == Enumerable(now)
  {
    RoleOperandStable(now.operands, now2.operands, orig.roles, IsEnumerable);
  }

  /**
   * The operand loop after its first `k` operands, numbering loads from
   * `next0`: exactly the lowerable operands among them were replaced by
   * loads of their own, in order, and `Enumerable` still reads as on the
   * original instruction.
   */
  ghost predicate OperandsProgress(orig: Inst, k: nat, now: Inst, loads: seq<Load>, next0: nat, next: nat)
    requires orig.Op? && |orig.operands| == |orig.roles| && k <= |orig.operands|
  {
    OperandsUpTo(orig, now, loads, k) &&
    (IsDefineKind(orig.kind) ==> Enumerable(now) == Enumerable(orig)) &&
    LoadsIn(loads, next0, next) && next == next0 + |loads| &&
    (loads != [] <==> SomeLowerable(orig, k))
  }

  /**
   * One step of the operand loop keeps `OperandsProgress`: deciding on the
   * instruction as rewritten so far agrees with deciding on the original.
   */
  lemma OperandStep(orig: Inst, k: nat, now: Inst, loads: seq<Load>, next0: nat, next: nat,
                    now2: Inst, loads2: seq<Load>, next2: nat)
    requires orig.Op? && |orig.operands| == |orig.roles| && k < |orig.operands|
    requires OperandsProgress(orig, k, now, loads, next0, next)
    requires if IsLiteral(now.operands[k]) && !MustBeLiteral(now, k)
      then now2 == now.(operands := now.operands[k := Ref(next)]) &&
           loads2 == loads + [Load(now.operands[k], next)] && next2 == next + 1
      else now2 == now && loads2 == loads && next2 == next
    ensures OperandsProgress(orig, k + 1, now2, loads2, next0, next2)
  {
    DecisionStable(orig, now, k);
    if Lowerable(orig, k) && IsDefineKind(orig.kind) {
      EnumerableKept(orig, now, now2, k);
    }
    OperandsUpToNext(orig, now, loads, now2, loads2, k);
  }

  /**
   * The operand loop of a non-phi instruction: each literal operand that
   * `operandMustBeLiteral` lets go is replaced by a fresh load, and the
   * loads go, in order, right before the instruction.
   */
  method LowerOperands(orig: Inst, next: nat) returns (now: Inst, loads: seq<Load>, next': nat)
    requires orig.Op? && |orig.operands| == |orig.roles|
    ensures OpLowered(orig, now, loads) && LoadsIn(loads, next, next') && next' == next + |loads|
    ensures loads != [] <==> NeedsLoads(orig)
  {
    now, loads, next' := orig, [], next;
    for k := 0 to |orig.operands|
      invariant OperandsProgress(orig, k, now, loads, next, next')
    {
      now, loads, next' := LowerOperandAt(orig, k, now, loads, next, next');
    }
    SomeLowerableExists(orig, |orig.operands|);
  }

  /** One step of the operand loop: operand `k`, decided on the instruction as rewritten so far. */
  method LowerOperandAt(orig: Inst, k: nat, now: Inst, loads: seq<Load>, ghost next0: nat, next: nat)
    returns (now': Inst, loads': seq<Load>, next': nat)
    requires orig.Op? && |orig.operands| == |orig.roles| && k < |orig.operands|
    requires OperandsProgress(orig, k, now, loads, next0, next)
    ensures OperandsProgress(orig, k + 1, now', loads', next0, next')
  {
    var v := now.operands[k];
    now', loads', next' := now, loads, next;
    if IsLiteral(v) && !MustBeLiteral(now, k) {
      now' := now.(operands := now.operands[k := Ref(next)]);
      loads' := loads + [Load(v, next)];
      next' := next + 1;
    }
    OperandStep(orig, k, now, loads, next0, next, now', loads', next');
  }

  /** Every entry of the phi names a block that has a terminator in the layout. */
  ghost predicate EntriesPlaced(l: Layout, orig: Inst)
    requires orig.Phi?
  {
    forall k :: 0 <= k < |orig.entries| ==> orig.entries[k].block in l.pre && l.pre[orig.entries[k].block] != []
  }

  /** The entries before `k` are lowered, the others untouched. */
  ghost predicate EntriesUpTo(l: Layout, orig: Inst, now: Inst, k: nat)
    requires orig.Phi? && k <= |orig.entries|
  {
    now.Phi? && now.id == orig.id && |now.entries| == |orig.entries| &&
    (forall m :: 0 <= m < |orig.entries| ==> now.entries[m].block == orig.entries[m].block) &&
    (forall m :: 0 <= m < k ==> EntryLowered(l, orig.entries[m], now.entries[m].value)) &&
    (forall m :: k <= m < |orig.entries| ==> now.entries[m] == orig.entries[m])
  }

  lemma EntriesUpToNext(l: Layout, l2: Layout, orig: Inst, now: Inst, now2: Inst, k: nat)
    requires orig.Phi? && k < |orig.entries| && EntriesUpTo(l, orig, now, k) && Grows(l, l2)
    requires now2.Phi? && now2.id == orig.id && |now2.entries| == |orig.entries|
    requires forall m :: 0 <= m < |orig.entries| && m != k ==> now2.entries[m] == now.entries[m]
    requires now2.entries[k].block == orig.entries[k].block
    requires EntryLowered(l2, orig.entries[k], now2.entries[k].value)
    ensures EntriesUpTo(l2, orig, now2, k + 1)
  {
    forall m | 0 <= m < k ensures EntryLowered(l2, orig.entries[m], now2.entries[m].value) {
      EntryLoweredGrows(l, l2, orig.entries[m], now.entries[m].value);
    }
  }

  lemma GrowsRefl(l: Layout)
    ensures Grows(l, l)
  {
    forall b | b in l.pre ensures PreGrows(l.pre[b], l.pre[b]) {
    }
  }

  lemma GrowsTrans(l1: Layout, l2: Layout, l3: Layout)
    requires Grows(l1, l2) && Grows(l2, l3)
    ensures Grows(l1, l3)
  {
    forall b | b in l1.pre ensures PreGrows(l1.pre[b], l3.pre[b]) {
      assert PreGrows(l1.pre[b], l2.pre[b]) && PreGrows(l2.pre[b], l3.pre[b]);
    }
  }

  /**
   * The phi loop after its first `k` entries, started from layout `l0` and
   * number `next0`: each literal entry among them has a load of its own at
   * the end of its block's terminator loads, and only loads were added.
   */
  ghost predicate EntriesProgress(l0: Layout, orig: Inst, k: nat, now: Inst, l: Layout, lo: nat, next0: nat, next: nat)
    requires orig.Phi? && k <= |orig.entries|
  {
    EntriesUpTo(l, orig, now, k) && EntriesPlaced(l, orig) && l.code == l0.code && Grows(l0, l) &&
    AllLoads(l, lo, next) && next0 <= next && (next > next0 <==> SomeLowerable(orig, k))
  }

  /** Loads only appended keep every entry's block placed. */
  lemma PlacedGrows(l1: Layout, l2: Layout, orig: Inst)
    requires orig.Phi? && EntriesPlaced(l1, orig) && Grows(l1, l2)
    ensures EntriesPlaced(l2, orig)
  {
    forall k | 0 <= k < |orig.entries|
      ensures orig.entries[k].block in l2.pre && l2.pre[orig.entries[k].block] != []
    {
      assert PreGrows(l1.pre[orig.entries[k].block], l2.pre[orig.entries[k].block]);
    }
  }

  /** A literal entry: its load goes last before the terminator of its block. */
  lemma EntryLoadStep(l0: Layout, orig: Inst, k: nat, now: Inst, l: Layout, lo: nat, next0: nat, next: nat,
                      now2: Inst, l2: Layout)
    requires orig.Phi? && k < |orig.entries| && lo <= next0
    requires EntriesProgress(l0, orig, k, now, l, lo, next0, next)
    requires IsLiteral(now.entries[k].value)
    requires now.entries[k].block in l.pre && l.pre[now.entries[k].block] != []
    requires now2 == now.(entries := now.entries[k := PhiEntry(Ref(next), now.entries[k].block)])
    requires l2 == AddLoads(l, now.entries[k].block, |l.pre[now.entries[k].block]| - 1, [Load(now.entries[k].value, next)])
    ensures EntriesProgress(l0, orig, k + 1, now2, l2, lo, next0, next + 1)
  {
    var e := now.entries[k];
    assert e == orig.entries[k];
    var p := e.block;
    var load := Load(e.value, next);
    AddLoadsGrows(l, p, |l.pre[p]| - 1, [load], lo, next, next + 1);
    assert TermPre(l2, p) == TermPre(l, p) + [load];
    EntriesUpToNext(l, l2, orig, now, now2, k);
    GrowsTrans(l0, l, l2);
    PlacedGrows(l, l2, orig);
  }

  /** An entry that is not a literal stays as it is. */
  lemma EntryKeptStep(l0: Layout, orig: Inst, k: nat, now: Inst, l: Layout, lo: nat, next0: nat, next: nat)
    requires orig.Phi? && k < |orig.entries|
    requires EntriesProgress(l0, orig, k, now, l, lo, next0, next)
    requires !IsLiteral(now.entries[k].value)
    ensures EntriesProgress(l0, orig, k + 1, now, l, lo, next0, next)
  {
    assert now.entries[k] == orig.entries[k];
    GrowsRefl(l);
    EntriesUpToNext(l, l, orig, now, now, k);
  }

  /**
   * The phi loop: every literal entry gets a load of its own before the
   * terminator of the entry's incoming block, and the entry now refers to it.
   */
  method LowerPhi(l: Layout, orig: Inst, ghost lo: nat, next: nat) returns (now: Inst, l': Layout, next': nat)
    requires orig.Phi? && EntriesPlaced(l, orig) && AllLoads(l, lo, next) && lo <= next
    ensures PhiLowered(l', orig, now) && l'.code == l.code && Grows(l, l')
    ensures AllLoads(l', lo, next') && next <= next' && (next' > next <==> NeedsLoads(orig))
  {
    now, l', next' := orig, l, next;
    GrowsRefl(l);
    for k := 0 to |orig.entries|
      invariant EntriesProgress(l, orig, k, now, l', lo, next, next')
    {
      now, l', next' := LowerEntryAt(l, orig, k, now, l', lo, next, next');
    }
    SomeLowerableExists(orig, |orig.entries|);
  }

  /** One step of the phi loop: entry `k`. */
  method LowerEntryAt(ghost l0: Layout, orig: Inst, k: nat, now: Inst, l: Layout, ghost lo: nat, ghost next0: nat, next: nat)
    returns (now': Inst, l': Layout, next': nat)
    requires orig.Phi? && k < |orig.entries| && lo <= next0
    requires EntriesProgress(l0, orig, k, now, l, lo, next0, next)
    ensures EntriesProgress(l0, orig, k + 1, now', l', lo, next0, next')
  {
    var e := now.entries[k];
    if IsLiteral(e.value) {
      var p := e.block;
      l' := AddLoads(l, p, |l.pre[p]| - 1, [Load(e.value, next)]);
      now' := now.(entries := now.entries[k := PhiEntry(Ref(next), p)]);
      next' := next + 1;
      EntryLoadStep(l0, orig, k, now, l, lo, next0, next, now', l');
    } else {
      EntryKeptStep(l0, orig, k, now, l, lo, next0, next);
      now', l', next' := now, l, next;
    }
  }

  /** A phi's entries name blocks of the function, which have terminators. */
  lemma PhiPlaced(fn: Fn, l: Layout, orig: Inst)
    requires BlocksWellFormed(fn) && Shaped(fn, l) && orig.Phi? && InstWellFormed(fn, orig)
    ensures EntriesPlaced(l, orig)
  {
    forall k | 0 <= k < |orig.entries| ensures orig.entries[k].block in l.pre && l.pre[orig.entries[k].block] != [] {
      assert BlockWellFormed(fn, fn.blocks[orig.entries[k].block]);
    }
  }

  /** The state of the block loop after its first `j` instructions, as the lemmas below establish it. */
  ghost predicate BlockProgress(fn: Fn, l0: Layout, b: nat, j: nat, l: Layout, lo: nat, next0: nat, next: nat)
    requires b in fn.blocks
  {
    j <= |fn.blocks[b]| && Shaped(fn, l0) && Shaped(fn, l) && Grows(l0, l) &&
    (forall c :: c in fn.blocks && c != b ==> l.code[c] == l0.code[c]) &&
    (forall m :: j <= m < |fn.blocks[b]| ==> l.code[b][m] == fn.blocks[b][m]) &&
    (forall m :: 0 <= m < j ==> InstLowered(fn, l, b, m)) &&
    AllLoads(l, lo, next) && lo <= next0 <= next
  }

  /** After lowering instruction `j`, the instructions lowered before it stay lowered. */
  lemma LoweredStep(fn: Fn, l1: Layout, l2: Layout, b: nat, j: nat)
    requires Shaped(fn, l1) && Shaped(fn, l2) && b in fn.blocks && j < |fn.blocks[b]|
    requires Grows(l1, l2)
    requires forall m :: 0 <= m < |fn.blocks[b]| && m != j ==> l2.code[b][m] == l1.code[b][m]
    requires forall m :: 0 <= m < j ==> InstLowered(fn, l1, b, m)
    ensures forall m :: 0 <= m < j ==> InstLowered(fn, l2, b, m)
  {
    forall m | 0 <= m < j ensures InstLowered(fn, l2, b, m) {
      InstLoweredGrows(fn, l1, l2, b, m);
    }
  }

  /** Loads only appended keep the layout's shape. */
  lemma ShapedGrows(fn: Fn, l: Layout, l2: Layout)
    requires Shaped(fn, l) && l2.code == l.code && Grows(l, l2)
    ensures Shaped(fn, l2)
  {
    forall c | c in fn.blocks ensures |l2.pre[c]| == |fn.blocks[c]| {
      assert PreGrows(l.pre[c], l2.pre[c]);
    }
  }

  /** Storing the lowered instruction `j` after its loads were placed advances `BlockProgress`. */
  lemma SetCodeStep(fn: Fn, l0: Layout, b: nat, j: nat, l: Layout, lo: nat, next0: nat, next: nat,
                    l2: Layout, now: Inst, next2: nat)
    requires b in fn.blocks && j < |fn.blocks[b]| && BlockProgress(fn, l0, b, j, l, lo, next0, next)
    requires Shaped(fn, l2) && l2.code == l.code && Grows(l, l2) && AllLoads(l2, lo, next2) && next <= next2
    requires InstLowered(fn, SetCode(l2, b, j, now), b, j)
    ensures BlockProgress(fn, l0, b, j + 1, SetCode(l2, b, j, now), lo, next0, next2)
  {
    var l3 := SetCode(l2, b, j, now);
    LoweredStep(fn, l, l3, b, j);
    GrowsTrans(l0, l, l3);
  }

  lemma PhiStep(fn: Fn, l0: Layout, b: nat, j: nat, l: Layout, lo: nat, next0: nat, next: nat,
                now: Inst, l2: Layout, next2: nat)
    requires b in fn.blocks && BlockProgress(fn, l0, b, j, l, lo, next0, next) && j < |fn.blocks[b]|
    requires fn.blocks[b][j].Phi?
    requires l2.code == l.code && Grows(l, l2) && PhiLowered(l2, fn.blocks[b][j], now)
    requires AllLoads(l2, lo, next2) && next <= next2
    ensures BlockProgress(fn, l0, b, j + 1, SetCode(l2, b, j, now), lo, next0, next2)
  {
    ShapedGrows(fn, l, l2);
    var orig := fn.blocks[b][j];
    var l3 := SetCode(l2, b, j, now);
    forall k | 0 <= k < |orig.entries| ensures EntryLowered(l3, orig.entries[k], now.entries[k].value) {
      assert TermPre(l3, orig.entries[k].block) == TermPre(l2, orig.entries[k].block);
    }
    SetCodeStep(fn, l0, b, j, l, lo, next0, next, l2, now, next2);
  }

  lemma OpLoweredWithin(orig: Inst, now: Inst, loads: seq<Load>, pre: seq<Load>)
    requires orig.Op? && OpLowered(orig, now, loads)
    requires forall x :: x in loads ==> x in pre
    ensures OpLowered(orig, now, pre)
  {
    forall k | 0 <= k < |orig.operands| ensures OperandLowered(orig, k, now.operands[k], pre) {
      assert OperandLowered(orig, k, now.operands[k], loads);
    }
  }

  lemma OpStep(fn: Fn, l0: Layout, b: nat, j: nat, l: Layout, lo: nat, next0: nat, next: nat,
               now: Inst, loads: seq<Load>, next2: nat)
    requires b in fn.blocks && BlockProgress(fn, l0, b, j, l, lo, next0, next) && j < |fn.blocks[b]|
    requires fn.blocks[b][j].Op? && OpLowered(fn.blocks[b][j], now, loads)
    requires LoadsIn(loads, next, next2) && next <= next2
    ensures BlockProgress(fn, l0, b, j + 1, SetCode(AddLoads(l, b, j, loads), b, j, now), lo, next0, next2)
  {
    AddLoadsGrows(l, b, j, loads, lo, next, next2);
    var l2 := AddLoads(l, b, j, loads);
    ShapedGrows(fn, l, l2);
    OpLoweredWithin(fn.blocks[b][j], now, loads, l2.pre[b][j]);
    SetCodeStep(fn, l0, b, j, l, lo, next0, next, l2, now, next2);
  }

  /** Some instruction among the first `j` of `blk` needs loads. */
  ghost predicate SomeNeedLoads(blk: seq<Inst>, j: nat)
    requires j <= |blk|
  {
    j > 0 && (SomeNeedLoads(blk, j - 1) || NeedsLoads(blk[j - 1]))
  }

  lemma {:induction false} SomeNeedLoadsExists(blk: seq<Inst>, j: nat)
    requires j <= |blk|
    ensures SomeNeedLoads(blk, j) <==> exists m :: 0 <= m < j && NeedsLoads(blk[m])
  {
    if j > 0 {
      SomeNeedLoadsExists(blk, j - 1);
      if !NeedsLoads(blk[j - 1]) && exists m :: 0 <= m < j && NeedsLoads(blk[m]) {
        var m :| 0 <= m < j && NeedsLoads(blk[m]);
        assert m < j - 1;
      }
    }
  }

  function Empties(n: nat): (r: seq<seq<Load>>)
    ensures |r| == n && forall j :: 0 <= j < n ==> r[j] == []
  {
    if n == 0 then [] else Empties(n - 1) + [[]]
  }

  /** The function before the pass: its own code and no loads. */
  function Start(fn: Fn): (l: Layout)
    ensures Shaped(fn, l) && l.code == fn.blocks
    ensures forall b, j :: b in l.pre && 0 <= j < |l.pre[b]| ==> l.pre[b][j] == []
  {
    Layout(fn.blocks, map b | b in fn.blocks :: Empties(|fn.blocks[b]|))
  }

  /**
   * Lowers instruction `j` of block `b`: the entries of a phi, or the
   * operands of any other instruction. `needs` tells whether a load was
   * created. The ghost parameters name the state the block loop started from.
   */
  method LowerInstAt(fn: Fn, ghost l0: Layout, l: Layout, b: nat, j: nat, ghost lo: nat, ghost next0: nat, next: nat)
    returns (l': Layout, next': nat, needs: bool)
    requires BlocksWellFormed(fn) && b in fn.blocks && j < |fn.blocks[b]|
    requires BlockProgress(fn, l0, b, j, l, lo, next0, next)
    ensures BlockProgress(fn, l0, b, j + 1, l', lo, next0, next')
    ensures needs <==> NeedsLoads(fn.blocks[b][j])
  {
    var orig := fn.blocks[b][j];
    assert BlockWellFormed(fn, fn.blocks[b]) && InstWellFormed(fn, orig);
    if orig.Phi? {
      PhiPlaced(fn, l, orig);
      var now, l2, next2 := LowerPhi(l, orig, lo, next);
      PhiStep(fn, l0, b, j, l, lo, next0, next, now, l2, next2);
      l', next', needs := SetCode(l2, b, j, now), next2, next2 > next;
    } else {
      var now, loads, next2 := LowerOperands(orig, next);
      OpStep(fn, l0, b, j, l, lo, next0, next, now, loads, next2);
      l', next', needs := SetCode(AddLoads(l, b, j, loads), b, j, now), next2, loads != [];
    }
  }

  /**
   * Lowers one block, in instruction order: every instruction ends up
   * lowered, loads are only added, the other blocks' code is untouched, and
   * the block reports a change iff one of its instructions needed a load.
   */
  method LowerBlock(fn: Fn, l: Layout, b: nat, ghost lo: nat, next: nat) returns (l': Layout, next': nat, changed: bool)
    requires BlocksWellFormed(fn) && Shaped(fn, l) && b in fn.blocks
    requires l.code[b] == fn.blocks[b] && AllLoads(l, lo, next) && lo <= next
    ensures Shaped(fn, l') && BlockLowered(fn, l', b) && Grows(l, l')
    ensures forall c :: c in fn.blocks && c != b ==> l'.code[c] == l.code[c]
    ensures AllLoads(l', lo, next') && next <= next'
    ensures changed == BlockNeedsLoads(fn, b)
  {
    l', next', changed := l, next, false;
    GrowsRefl(l);
    for j := 0 to |fn.blocks[b]|
      invariant BlockProgress(fn, l, b, j, l', lo, next, next')
      invariant changed == SomeNeedLoads(fn.blocks[b], j)
    {
      var needs;
      l', next', needs := LowerInstAt(fn, l, l', b, j, lo, next, next');
      changed := changed || needs;
    }
    SomeNeedLoadsExists(fn.blocks[b], |fn.blocks[b]|);
  }

  /** Some instruction of block `b` needs loads. */
  ghost predicate BlockNeedsLoads(fn: Fn, b: nat)
    requires b in fn.blocks
  {
    exists j :: 0 <= j < |fn.blocks[b]| && NeedsLoads(fn.blocks[b][j])
  }

  /** Some block among the first `i` in function order needs loads. */
  ghost predicate SomeBlockNeedsLoads(fn: Fn, i: nat)
    requires i <= |fn.order| && forall b :: b in fn.order ==> b in fn.blocks
  {
    i > 0 && (SomeBlockNeedsLoads(fn, i - 1) || BlockNeedsLoads(fn, fn.order[i - 1]))
  }

  lemma {:induction false} SomeBlockNeedsLoadsExists(fn: Fn, i: nat)
    requires i <= |fn.order| && forall b :: b in fn.order ==> b in fn.blocks
    ensures SomeBlockNeedsLoads(fn, i) <==> exists b :: b in fn.order[..i] && BlockNeedsLoads(fn, b)
  {
    if i > 0 {
      SomeBlockNeedsLoadsExists(fn, i - 1);
      assert fn.order[..i] == fn.order[..i - 1] + [fn.order[i - 1]];
    }
  }

  /** The state of the function loop after its first `i` blocks. */
  ghost predicate PassProgress(fn: Fn, firstId: nat, i: nat, l: Layout, next: nat, changed: bool)
    requires WellFormed(fn) && i <= |fn.order|
  {
    Shaped(fn, l) && firstId <= next && AllLoads(l, firstId, next) &&
    (forall b :: b in fn.blocks && b !in fn.order[..i] ==> l.code[b] == fn.blocks[b]) &&
    (forall b :: b in fn.order[..i] ==> BlockLowered(fn, l, b)) &&
    changed == SomeBlockNeedsLoads(fn, i)
  }

  /** After block `order[i]`, the blocks visited so far are all lowered. */
  lemma VisitedStep(fn: Fn, i: nat, l: Layout, l2: Layout)
    requires WellFormed(fn) && i < |fn.order| && Shaped(fn, l) && Shaped(fn, l2) && Grows(l, l2)
    requires forall c :: c in fn.order[..i] ==> BlockLowered(fn, l, c)
    requires BlockLowered(fn, l2, fn.order[i])
    requires forall c :: c in fn.blocks && c != fn.order[i] ==> l2.code[c] == l.code[c]
    ensures forall c :: c in fn.order[..i + 1] ==> BlockLowered(fn, l2, c)
  {
    NoRepeatsPrefix(fn.order, i);
    assert fn.order[..i + 1] == fn.order[..i] + [fn.order[i]];
    forall c | c in fn.order[..i] ensures BlockLowered(fn, l2, c) {
      BlockLoweredGrows(fn, l, l2, c);
    }
  }

  /** After block `order[i]`, the blocks not visited yet still hold their own code. */
  lemma UnvisitedStep(fn: Fn, i: nat, l: Layout, l2: Layout)
    requires WellFormed(fn) && i < |fn.order| && Shaped(fn, l) && Shaped(fn, l2)
    requires forall c :: c in fn.blocks && c !in fn.order[..i] ==> l.code[c] == fn.blocks[c]
    requires forall c :: c in fn.blocks && c != fn.order[i] ==> l2.code[c] == l.code[c]
    ensures forall c :: c in fn.blocks && c !in fn.order[..i + 1] ==> l2.code[c] == fn.blocks[c]
  {
    assert fn.order[..i + 1] == fn.order[..i] + [fn.order[i]];
  }

  /** One step of the function loop keeps `PassProgress`. */
  lemma BlockStep(fn: Fn, firstId: nat, i: nat, l: Layout, next: nat, changed: bool,
                  l2: Layout, next2: nat, changedB: bool)
    requires WellFormed(fn) && i < |fn.order| && PassProgress(fn, firstId, i, l, next, changed)
    requires Shaped(fn, l2) && BlockLowered(fn, l2, fn.order[i]) && Grows(l, l2)
    requires forall c :: c in fn.blocks && c != fn.order[i] ==> l2.code[c] == l.code[c]
    requires AllLoads(l2, firstId, next2) && next <= next2
    requires changedB == BlockNeedsLoads(fn, fn.order[i])
    ensures PassProgress(fn, firstId, i + 1, l2, next2, changed || changedB)
  {
    VisitedStep(fn, i, l, l2);
    UnvisitedStep(fn, i, l, l2);
  }

  /**
   * loadConstants: lowers every block in function order, numbering new
   * loads from `firstId` on. Returns the new function, whether anything
   * changed, and where each load went: every instruction is lowered, every
   * inserted load is numbered `firstId` or above, and the pass reports a
   * change iff some instruction needed a load.
   */
  method LoadConstantsPass(fn: Fn, firstId: nat) returns (g: Fn, changed: bool, l: Layout)
    requires WellFormed(fn)
    ensures Shaped(fn, l) && g == Emit(fn, l)
    ensures forall b :: b in fn.blocks ==> BlockLowered(fn, l, b) && FreshLoads(l.pre[b], firstId)
    ensures changed <==> exists b, j :: b in fn.blocks && 0 <= j < |fn.blocks[b]| && NeedsLoads(fn.blocks[b][j])
  {
    l := Start(fn);
    var next := firstId;
    changed := false;
    for i := 0 to |fn.order|
      invariant PassProgress(fn, firstId, i, l, next, changed)
    {
      var b := fn.order[i];
      NoRepeatsPrefix(fn.order, i);
      var l2, next2, changedB := LowerBlock(fn, l, b, firstId, next);
      BlockStep(fn, firstId, i, l, next, changed, l2, next2, changedB);
      l, next, changed := l2, next2, changed || changedB;
    }
    g := Fn(fn.order, map b | b in fn.blocks :: Flatten(l.pre[b], l.code[b]));
    PassDone(fn, firstId, l, next, changed);
  }

  lemma PassDone(fn: Fn, firstId: nat, l: Layout, next: nat, changed: bool)
    requires WellFormed(fn) && PassProgress(fn, firstId, |fn.order|, l, next, changed)
    ensures forall b :: b in fn.blocks ==> BlockLowered(fn, l, b) && FreshLoads(l.pre[b], firstId)
    ensures changed <==> exists b, j :: b in fn.blocks && 0 <= j < |fn.blocks[b]| && NeedsLoads(fn.blocks[b][j])
  {
    assert fn.order[..|fn.order|] == fn.order;
    SomeBlockNeedsLoadsExists(fn, |fn.order|);
    forall b | b in fn.blocks ensures FreshLoads(l.pre[b], firstId) {
      assert BlockLoads(l.pre[b], firstId, next);
    }
  }

  // ---------------------------------------------------------------------
  // A second run finds nothing to do.

  /** The flag slot of a define instruction is never lowered, so the lowered instruction reads the same flag. */
  lemma EnumerableKeptByLowering(orig: Inst, now: Inst, pre: seq<Load>)
    requires orig.Op? && |orig.operands| == |orig.roles| && IsDefineKind(orig.kind) && OpLowered(orig, now, pre)
    ensures Enumerable(now) == Enumerable(orig)
  {
    forall m | 0 <= m < |orig.roles| && orig.roles[m] == IsEnumerable
      ensures now.operands[m] == orig.operands[m]
    {
      assert MustBeLiteral(orig, m);
      assert OperandLowered(orig, m, now.operands[m], pre);
    }
    RoleOperandStable(now.operands, orig.operands, orig.roles, IsEnumerable);
  }

  /** A lowered instruction: every literal it still has is one `operandMustBeLiteral` keeps. */
  lemma OpLoweredNeedsNothing(orig: Inst, now: Inst, pre: seq<Load>)
    requires orig.Op? && |orig.operands| == |orig.roles| && OpLowered(orig, now, pre)
    ensures !NeedsLoads(now)
  {
    if IsDefineKind(orig.kind) {
      EnumerableKeptByLowering(orig, now, pre);
    }
    forall k | 0 <= k < |now.operands| ensures !Lowerable(now, k) {
      assert OperandLowered(orig, k, now.operands[k], pre);
      if !Lowerable(orig, k) {
        DecisionStable(orig, now, k);
      }
    }
  }

  /** A lowered phi has no literal entry left. */
  lemma PhiLoweredNeedsNothing(l: Layout, orig: Inst, now: Inst)
    requires orig.Phi? && PhiLowered(l, orig, now)
    ensures !NeedsLoads(now)
  {
    forall k | 0 <= k < |now.entries| ensures !Lowerable(now, k) {
      assert EntryLowered(l, orig.entries[k], now.entries[k].value);
    }
  }

  /**
   * Once every block is lowered, no instruction of the emitted function,
   * original or inserted, needs a load: run again, the pass reports no change.
   */
  lemma LoweredNeedsNothing(fn: Fn, l: Layout)
    requires WellFormed(fn) && Shaped(fn, l)
    requires forall b :: b in fn.blocks ==> BlockLowered(fn, l, b)
    ensures forall b, x :: b in Emit(fn, l).blocks && x in Emit(fn, l).blocks[b] ==> !NeedsLoads(x)
  {
    var g := Emit(fn, l);
    forall b, x | b in g.blocks && x in g.blocks[b] ensures !NeedsLoads(x) {
      assert g.blocks[b] == Flatten(l.pre[b], l.code[b]);
      FlattenContents(l.pre[b], l.code[b]);
      if x in l.code[b] {
        var j :| 0 <= j < |l.code[b]| && l.code[b][j] == x;
        var orig := fn.blocks[b][j];
        assert InstLowered(fn, l, b, j);
        assert BlockWellFormed(fn, fn.blocks[b]) && InstWellFormed(fn, orig);
        if orig.Phi? {
          PhiLoweredNeedsNothing(l, orig, x);
        } else {
          OpLoweredNeedsNothing(orig, x, l.pre[b][j]);
        }
      } else {
        var j, m :| 0 <= j < |l.pre[b]| && 0 <= m < |l.pre[b][j]| && x == LoadInst(l.pre[b][j][m]);
        LoadsNeedNothing(l.pre[b][j][m]);
      }
    }
  }
}

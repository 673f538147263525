/**
 * Bookkeeping of the IR generator (lib/IRGen/ESTreeIRGen.h): the table of
 * compiled entities and the compilation queue, the stack of surrounding
 * try statements, the per-function label table, the block shape of a
 * try/catch, and the iterator-completion test.
 *
 * AST nodes, values, basic blocks and stack allocations are identified by
 * naturals.
 */
module IrGen {
  import opened Wrappers

  // ---------------------------------------------------------------------
  // Compiled entities

  /**
   * The extra key that tells apart the entities compiled from one AST node.
   * The function-like and class-like keys share the codes 0, 1 and 2.
   */
  datatype ExtraKey =
    | Normal | GeneratorOuter | AsyncOuter
    | ImplicitClassConstructor | ImplicitFieldInitializer | ImplicitStaticElementsInitializer

  /** The small integer stored next to the node pointer in the map key. */
  function Code(k: ExtraKey): nat
  {
    match k
    case Normal => 0
    case GeneratorOuter => 1
    case AsyncOuter => 2
    case ImplicitClassConstructor => 0
    case ImplicitFieldInitializer => 1
    case ImplicitStaticElementsInitializer => 2
  }

  /** A compiled-entity map key: the node and the extra key's code. */
  datatype CompiledKey = CompiledKey(node: nat, code: nat)

  function KeyOf(node: nat, k: ExtraKey): CompiledKey
  {
    CompiledKey(node, Code(k))
  }

  /** Two extra keys name the same entry of a node exactly when their codes agree. */
  lemma ExtraKeysDistinct(node: nat, a: ExtraKey, b: ExtraKey)
    ensures KeyOf(node, a) == KeyOf(node, b) <==> Code(a) == Code(b)
    ensures a != b && (a.Normal? || a.GeneratorOuter? || a.AsyncOuter?) && (b.Normal? || b.GeneratorOuter? || b.AsyncOuter?) ==>
      KeyOf(node, a) != KeyOf(node, b)
  {
  }

  /** findCompiledEntity: the value compiled for the node and extra key, or nothing. */
  function Find(compiled: map<CompiledKey, nat>, node: nat, k: ExtraKey): (r: Option<nat>)
    ensures r.Some? <==> KeyOf(node, k) in compiled
    ensures r.Some? ==> r.value == compiled[KeyOf(node, k)]
  {
    if KeyOf(node, k) in compiled then Some(compiled[KeyOf(node, k)]) else None
  }

  /** After an entity is enqueued it is found under its key, and every other key answers as before. */
  lemma FindAfterEnqueue(compiled: map<CompiledKey, nat>, node: nat, k: ExtraKey, value: nat, node': nat, k': ExtraKey)
    ensures Find(compiled[KeyOf(node, k) := value], node', k') ==
      if KeyOf(node', k') == KeyOf(node, k) then Some(value) else Find(compiled, node', k')
  {
  }

  /** A pending compilation: the callback that will compile the body of `node` into `value`. */
  datatype Task = Task(node: nat, key: ExtraKey, value: nat)

  /** The compiled-entity map and the compilation queue. */
  class Compilation {
    var compiled: map<CompiledKey, nat>
    var queue: seq<Task>

    constructor()
      ensures compiled == map[] && queue == []
    {
      compiled := map[];
      queue := [];
    }

    function FindCompiledEntity(node: nat, k: ExtraKey): Option<nat>
      reads this
    {
      Find(compiled, node, k)
    }

    /** enqueueCompilation: the key must be new; the value is recorded and the callback queued last. */
    method EnqueueCompilation(node: nat, k: ExtraKey, value: nat, task: Task)
      requires KeyOf(node, k) !in compiled
      modifies this
      ensures compiled == old(compiled)[KeyOf(node, k) := value]
      ensures queue == old(queue) + [task]
      ensures FindCompiledEntity(node, k) == Some(value)
    {
      compiled := compiled[KeyOf(node, k) := value];
      queue := queue + [task];
    }
  }

  // ---------------------------------------------------------------------
  // Surrounding try statements and labels

  /** A label's targets and the try statement around its definition. */
  datatype GotoLabel = GotoLabel(breakTarget: Option<nat>, continueTarget: Option<nat>, surroundingTry: SurroundingTry?)

  const Uninitialized := GotoLabel(None, None, null)

  /** The per-function state: the innermost surrounding try, the current scope, the labels. */
  class FunctionContext {
    var surroundingTry: SurroundingTry?
    var curScope: nat
    var labels: seq<GotoLabel>
    /** The live SurroundingTry records, outermost first. */
    ghost var tryStack: seq<SurroundingTry>

    /** The `outer` links of the live records form the stack, and the innermost is current. */
    ghost predicate Valid()
      reads this
    {
      (tryStack == [] ==> surroundingTry == null) &&
      (tryStack != [] ==> surroundingTry == tryStack[|tryStack| - 1] && tryStack[0].outer == null) &&
      forall i :: 0 < i < |tryStack| ==> tryStack[i].outer == tryStack[i - 1]
    }

    /** A context with `labelCount` uninitialized labels and no surrounding try. */
    constructor(labelCount: nat, scope: nat)
      ensures Valid() && tryStack == [] && curScope == scope
      ensures |labels| == labelCount && forall i :: 0 <= i < labelCount ==> labels[i] == Uninitialized
    {
      surroundingTry := null;
      curScope := scope;
      labels := seq(labelCount, _ => Uninitialized);
      tryStack := [];
    }

    /** initLabel: records both targets and the current surrounding try for the label. */
    method InitLabel(index: nat, breakTarget: Option<nat>, continueTarget: Option<nat>)
      requires index < |labels|
      modifies this
      ensures labels == old(labels)[index := GotoLabel(breakTarget, continueTarget, surroundingTry)]
      ensures surroundingTry == old(surroundingTry) && tryStack == old(tryStack) && curScope == old(curScope)
    {
      labels := labels[index := GotoLabel(breakTarget, continueTarget, surroundingTry)];
    }

    /** label(): only an initialized label may be read. */
    function Label(index: nat): GotoLabel
      requires index < |labels| && Initialized(labels[index])
      reads this
    {
      labels[index]
    }
  }

  /** A label has been initialized when it has a break or a continue target. */
  predicate Initialized(l: GotoLabel)
  {
    l.breakTarget.Some? || l.continueTarget.Some?
  }

  /** After initLabel, the label may be read exactly when one target was given, and it holds what was given. */
  lemma InitLabelReadable(labels: seq<GotoLabel>, index: nat, b: Option<nat>, c: Option<nat>, t: SurroundingTry?)
    requires index < |labels|
    ensures var l := labels[index := GotoLabel(b, c, t)];
      (Initialized(l[index]) <==> b.Some? || c.Some?) &&
      l[index].breakTarget == b && l[index].continueTarget == c && l[index].surroundingTry == t &&
      forall i :: 0 <= i < |labels| && i != index ==> l[i] == labels[i]
  {
  }

  /** A try statement being generated; it lives while its body is emitted. */
  class SurroundingTry {
    const functionContext: FunctionContext
    /** The try statement around this one. */
    const outer: SurroundingTry?
    /** The scope the finally code runs in. */
    const scope: nat
    const node: nat
    var catchBlock: nat

    /** Construction pushes the record: it remembers the previous innermost try and becomes innermost. */
    constructor(fc: FunctionContext, node: nat, catchBlock: nat)
      requires fc.Valid()
      modifies fc
      ensures fc.Valid() && fc.tryStack == old(fc.tryStack) + [this]
      ensures outer == old(fc.surroundingTry) && fc.surroundingTry == this
      ensures scope == fc.curScope && this.node == node && this.catchBlock == catchBlock && functionContext == fc
      ensures fc.labels == old(fc.labels) && fc.curScope == old(fc.curScope)
    {
      functionContext := fc;
      outer := fc.surroundingTry;
      scope := fc.curScope;
      this.node := node;
      this.catchBlock := catchBlock;
      new;
      fc.surroundingTry := this;
      fc.tryStack := fc.tryStack + [this];
    }

    /** Destruction pops the record, making the outer try innermost again. */
    method Pop()
      requires functionContext.Valid() && functionContext.tryStack != []
      requires functionContext.tryStack[|functionContext.tryStack| - 1] == this
      modifies functionContext
      ensures functionContext.Valid()
      ensures functionContext.tryStack == old(functionContext.tryStack)[..|old(functionContext.tryStack)| - 1]
      ensures functionContext.surroundingTry == outer
      ensures functionContext.labels == old(functionContext.labels) && functionContext.curScope == old(functionContext.curScope)
    {
      var fc := functionContext;
      if |fc.tryStack| > 1 {
        assert outer == fc.tryStack[|fc.tryStack| - 2];
      }
      fc.surroundingTry := outer;
      fc.tryStack := fc.tryStack[..|fc.tryStack| - 1];
    }
  }

  // ---------------------------------------------------------------------
  // emitTryCatchScaffolding

  /** The instructions of the scaffolding; what the callbacks emit is `Emitted`. */
  datatype Instr =
    | TryStart(tryBody: nat, catchBlock: nat)
    | TryEnd(catchBlock: nat, cleanup: nat)
    | Branch(target: nat)
    | LoadStack(ptr: nat)
    | StrictlyEqual(lhs: Operand, rhs: Operand)
    | Emitted(tag: nat)

  /** An operand: the result of an instruction of the same block, or the literal undefined. */
  datatype Operand = InstResult(index: nat) | UndefinedLiteral

  /** The blocks of the function being built and the block instructions are appended to. */
  datatype Build = Build(blocks: seq<seq<Instr>>, insertion: nat)

  predicate ValidBuild(b: Build)
  {
    b.insertion < |b.blocks|
  }

  function Append(b: Build, i: Instr): (r: Build)
    requires ValidBuild(b)
    ensures ValidBuild(r) && |r.blocks| == |b.blocks|
  {
    b.(blocks := b.blocks[b.insertion := b.blocks[b.insertion] + [i]])
  }

  function AppendAll(b: Build, code: seq<Instr>): (r: Build)
    requires ValidBuild(b)
    ensures ValidBuild(r) && |r.blocks| == |b.blocks| && r.insertion == b.insertion
    ensures r.blocks[b.insertion] == b.blocks[b.insertion] + code
    ensures forall k :: 0 <= k < |b.blocks| && k != b.insertion ==> r.blocks[k] == b.blocks[k]
  {
    b.(blocks := b.blocks[b.insertion := b.blocks[b.insertion] + code])
  }

  /**
   * emitTryCatchScaffolding with callbacks that emit straight-line code into
   * the current block: `body` gets the catch block and `handler` the next
   * block. Returns the build after it and the next block.
   */
  function Scaffold(b: Build, next: Option<nat>, body: nat -> seq<Instr>, cleanup: seq<Instr>, handler: nat -> seq<Instr>): (r: (Build, nat))
    requires ValidBuild(b)
    ensures var n := |b.blocks|;
      var catchB := n;
      var nextB := if next.Some? then next.value else n + 1;
      var bodyB := if next.Some? then n + 1 else n + 2;
      var cleanupB := bodyB + 1;
      var out := r.0;
      r.1 == nextB && |out.blocks| == cleanupB + 1 && out.insertion == catchB &&
      out.blocks[b.insertion] == b.blocks[b.insertion] + [TryStart(bodyB, catchB)] &&
      out.blocks[bodyB] == body(catchB) + [TryEnd(catchB, cleanupB)] &&
      out.blocks[cleanupB] == cleanup + [Branch(nextB)] &&
      out.blocks[catchB] == handler(nextB) &&
      (next.None? ==> out.blocks[nextB] == []) &&
      forall k :: 0 <= k < n && k != b.insertion ==> out.blocks[k] == b.blocks[k]
  {
    var catchB := |b.blocks|;
    var nextB := if next.Some? then next.value else catchB + 1;
    var inTry := OpenTry(b, next, body);
    var bodyB := inTry.insertion;
    var afterTry := CloseTry(inTry, catchB, nextB, cleanup);
    var b9 := AppendAll(afterTry.(insertion := catchB), handler(nextB));
    (b9, nextB)
  }

  /**
   * The first half of the scaffolding: the catch block, the next block when
   * none is given, and the try body block are created, the try starts in the
   * current block, and the body is emitted into its own block.
   */
  function OpenTry(b: Build, next: Option<nat>, body: nat -> seq<Instr>): (r: Build)
    requires ValidBuild(b)
    ensures var n := |b.blocks|;
      var bodyB := if next.Some? then n + 1 else n + 2;
      |r.blocks| == bodyB + 1 && r.insertion == bodyB &&
      r.blocks[b.insertion] == b.blocks[b.insertion] + [TryStart(bodyB, n)] &&
      r.blocks[bodyB] == body(n) && r.blocks[n] == [] &&
      (next.None? ==> r.blocks[n + 1] == []) &&
      forall k :: 0 <= k < n && k != b.insertion ==> r.blocks[k] == b.blocks[k]
  {
    var catchB := |b.blocks|;
    var b1 := b.(blocks := b.blocks + [[]]);
    var b2 := if next.Some? then b1 else b1.(blocks := b1.blocks + [[]]);
    var bodyB := |b2.blocks|;
    var b3 := b2.(blocks := b2.blocks + [[]]);
    var b4 := Append(b3, TryStart(bodyB, catchB)).(insertion := bodyB);
    AppendAll(b4, body(catchB))
  }

  /**
   * The second half: the try ends in the body block and enters a new cleanup
   * block, which runs the cleanup code and branches to the next block.
   */
  function CloseTry(b: Build, catchB: nat, nextB: nat, cleanup: seq<Instr>): (r: Build)
    requires ValidBuild(b)
    ensures var cleanupB := |b.blocks|;
      |r.blocks| == cleanupB + 1 && r.insertion == cleanupB &&
      r.blocks[b.insertion] == b.blocks[b.insertion] + [TryEnd(catchB, cleanupB)] &&
      r.blocks[cleanupB] == cleanup + [Branch(nextB)] &&
      forall k :: 0 <= k < cleanupB && k != b.insertion ==> r.blocks[k] == b.blocks[k]
  {
    var cleanupB := |b.blocks|;
    var b6 := b.(blocks := b.blocks + [[]]);
    var b7 := Append(b6, TryEnd(catchB, cleanupB)).(insertion := cleanupB);
    Append(AppendAll(b7, cleanup), Branch(nextB))
  }

  /** The IR builder: the blocks of the function being built and the insertion block. */
  class Builder {
    var blocks: seq<seq<Instr>>
    var insertion: nat

    ghost predicate Valid()
      reads this
    {
      insertion < |blocks|
    }

    method CreateBasicBlock() returns (id: nat)
      modifies this
      ensures blocks == old(blocks) + [[]] && id == |old(blocks)| && insertion == old(insertion)
    {
      id := |blocks|;
      blocks := blocks + [[]];
    }

    method Create(i: Instr)
      requires Valid()
      modifies this
      ensures Valid() && Build(blocks, insertion) == Append(old(Build(blocks, insertion)), i)
    {
      blocks := blocks[insertion := blocks[insertion] + [i]];
    }

    method CreateAll(code: seq<Instr>)
      requires Valid()
      modifies this
      ensures Valid() && Build(blocks, insertion) == AppendAll(old(Build(blocks, insertion)), code)
    {
      blocks := blocks[insertion := blocks[insertion] + code];
    }

    method SetInsertionBlock(block: nat)
      modifies this
      ensures blocks == old(blocks) && insertion == block
    {
      insertion := block;
    }

    /** emitTryCatchScaffolding. */
    method EmitTryCatchScaffolding(next: Option<nat>, body: nat -> seq<Instr>, cleanup: seq<Instr>, handler: nat -> seq<Instr>)
      returns (nextBlock: nat)
      requires Valid()
      modifies this
      ensures Valid() && (Build(blocks, insertion), nextBlock) == Scaffold(old(Build(blocks, insertion)), next, body, cleanup, handler)
    {
      ghost var b0 := Build(blocks, insertion);
      var catchBlock;
      catchBlock, nextBlock := EmitTryStart(next, body);
      ghost var b1 := Build(blocks, insertion);
      EmitTryEnd(catchBlock, nextBlock, cleanup);
      ghost var b2 := Build(blocks, insertion);
      SetInsertionBlock(catchBlock);
      CreateAll(handler(nextBlock));
      assert Build(blocks, insertion) == AppendAll(b2.(insertion := catchBlock), handler(nextBlock));
    }

    /** The first half of emitTryCatchScaffolding: the blocks are created and the body is emitted. */
    method EmitTryStart(next: Option<nat>, body: nat -> seq<Instr>) returns (catchBlock: nat, nextBlock: nat)
      requires Valid()
      modifies this
      ensures Valid() && Build(blocks, insertion) == OpenTry(old(Build(blocks, insertion)), next, body)
      ensures catchBlock == |old(blocks)| && nextBlock == if next.Some? then next.value else catchBlock + 1
    {
      catchBlock := CreateBasicBlock();
      if next.None? {
        nextBlock := CreateBasicBlock();
      } else {
        nextBlock := next.value;
      }
      var tryBodyBlock := CreateBasicBlock();
      Create(TryStart(tryBodyBlock, catchBlock));
      SetInsertionBlock(tryBodyBlock);
      CreateAll(body(catchBlock));
    }

    /** The second half: the try ends and the cleanup block branches to the next block. */
    method EmitTryEnd(catchBlock: nat, nextBlock: nat, cleanup: seq<Instr>)
      requires Valid()
      modifies this
      ensures Valid() && Build(blocks, insertion) == CloseTry(old(Build(blocks, insertion)), catchBlock, nextBlock, cleanup)
    {
      var cleanupBlock := CreateBasicBlock();
      Create(TryEnd(catchBlock, cleanupBlock));
      SetInsertionBlock(cleanupBlock);
      CreateAll(cleanup);
      Create(Branch(nextBlock));
    }

    /** emitIteratorComplete: loads the iterator storage and compares it strictly with undefined. */
    method EmitIteratorComplete(iterStorage: nat) returns (result: nat)
      requires Valid()
      modifies this
      ensures Valid() && insertion == old(insertion) && |blocks| == |old(blocks)|
      ensures blocks[insertion] == old(blocks[insertion]) + IteratorComplete(iterStorage, |old(blocks[insertion])|)
      ensures result == |blocks[insertion]| - 1
    {
      var load := |blocks[insertion]|;
      Create(LoadStack(iterStorage));
      Create(StrictlyEqual(InstResult(load), UndefinedLiteral));
      result := load + 1;
    }
  }

  /** The two instructions of emitIteratorComplete when the load is the `at`-th instruction of its block. */
  function IteratorComplete(iterStorage: nat, at: nat): seq<Instr>
  {
    [LoadStack(iterStorage), StrictlyEqual(InstResult(at), UndefinedLiteral)]
  }

  // ---------------------------------------------------------------------
  // What the iterator-completion test computes

  /** The values an iterator storage slot can hold, as far as the test is concerned. */
  datatype Value = Undefined | Bool(b: bool) | Other(id: nat)

  /** The value of instruction `i` of a straight-line block, given the stack slots' contents. */
  function Eval(insts: seq<Instr>, slots: map<nat, Value>, i: nat): Option<Value>
    requires i < |insts|
    decreases i
  {
    match insts[i]
    case LoadStack(p) => if p in slots then Some(slots[p]) else None
    case StrictlyEqual(l, r) =>
      var a := EvalOperand(insts, slots, i, l);
      var b := EvalOperand(insts, slots, i, r);
      if a.Some? && b.Some? then Some(Bool(a.value == b.value)) else None
    case _ => None
  }

  function EvalOperand(insts: seq<Instr>, slots: map<nat, Value>, i: nat, o: Operand): Option<Value>
    requires i < |insts|
    decreases i, 0
  {
    match o
    case UndefinedLiteral => Some(Undefined)
    case InstResult(j) => if j < i then Eval(insts, slots, j) else None
  }

  /** The emitted test is true exactly when the iterator storage holds undefined. */
  lemma IteratorCompleteMeaning(prefix: seq<Instr>, iterStorage: nat, slots: map<nat, Value>)
    requires iterStorage in slots
    ensures var insts := prefix + IteratorComplete(iterStorage, |prefix|);
      Eval(insts, slots, |prefix| + 1) == Some(Bool(slots[iterStorage] == Undefined))
  {
    var insts := prefix + IteratorComplete(iterStorage, |prefix|);
    assert insts[|prefix|] == LoadStack(iterStorage);
    assert insts[|prefix| + 1] == StrictlyEqual(InstResult(|prefix|), UndefinedLiteral);
    assert Eval(insts, slots, |prefix|) == Some(slots[iterStorage]);
    assert EvalOperand(insts, slots, |prefix| + 1, InstResult(|prefix|)) == Some(slots[iterStorage]);
  }
}

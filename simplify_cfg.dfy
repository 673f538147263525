/**
 * The static-branch part of the SimplifyCFG pass over one IR function:
 * conditional branches and switches whose outcome is known become direct
 * branches (dropping this block's entries from the phis of the abandoned
 * targets), trampolines are removed, and a block is merged with its only
 * successor when that successor has no other predecessor.
 *
 * The function is a value: its blocks in list order and, for each block, its
 * instructions with the terminator last.
 */
module SimplifyCfg {
  import opened Wrappers
  import opened IREval

  /** The static type of a non-literal value, as far as `evalToBoolean` looks at it. */
  datatype ValueType = TObject | TNull | TUndefined | TOther

  /** An instruction operand: a literal or a value computed by another instruction. */
  datatype Value = Lit(lit: Literal) | Computed(id: nat, ty: ValueType)

  datatype PhiEntry = PhiEntry(value: Value, block: nat)

  datatype SwitchCase = SwitchCase(value: Literal, dest: nat)

  /**
   * The instructions the pass distinguishes. `ForIn` stands for GetPNamesInst
   * and GetNextPNameInst (terminators whose block operands are plain jump
   * targets); `Other` for every other instruction, with its block operands.
   */
  datatype Inst =
    | Phi(entries: seq<PhiEntry>)
    | Branch(dest: nat)
    | CondBranch(cond: Value, trueDest: nat, falseDest: nat)
    | Switch(input: Value, defaultDest: nat, cases: seq<SwitchCase>)
    | ForIn(targets: seq<nat>)
    | Other(blocks: seq<nat>, terminator: bool)

  datatype Fn = Fn(order: seq<nat>, blocks: map<nat, seq<Inst>>)

  predicate IsTerminator(i: Inst)
  {
    !i.Phi? && (i.Other? ==> i.terminator)
  }

  function CaseDests(cases: seq<SwitchCase>): (r: seq<nat>)
    ensures |r| == |cases| && forall k :: 0 <= k < |cases| ==> r[k] == cases[k].dest
  {
    if cases == [] then [] else [cases[0].dest] + CaseDests(cases[1..])
  }

  /** The successor blocks of a terminator. */
  function Successors(t: Inst): seq<nat>
  {
    match t
    case Branch(d) => [d]
    case CondBranch(_, x, y) => [x, y]
    case Switch(_, d, cases) => [d] + CaseDests(cases)
    case ForIn(ts) => ts
    case Other(bs, term) => if term then bs else []
    case Phi(_) => []
  }

  predicate Distinct(s: seq<nat>)
  {
    forall i, j :: 0 <= i < j < |s| ==> s[i] != s[j]
  }

  /** Blocks are listed once, each is non-empty, and exactly its last instruction is a terminator. */
  ghost predicate Valid(fn: Fn)
  {
    Distinct(fn.order) &&
    (forall b :: b in fn.blocks <==> b in fn.order) &&
    (forall b :: b in fn.blocks ==> Shaped(fn.blocks[b]))
  }

  /** A block is non-empty and exactly its last instruction is a terminator. */
  ghost predicate Shaped(blk: seq<Inst>)
  {
    |blk| > 0 && IsTerminator(blk[|blk| - 1]) &&
    forall i :: 0 <= i < |blk| - 1 ==> !IsTerminator(blk[i])
  }

  function Terminator(fn: Fn, b: nat): Inst
    requires Valid(fn) && b in fn.blocks
  {
    fn.blocks[b][|fn.blocks[b]| - 1]
  }

  /** Every branch target is a block of the function. */
  ghost predicate Closed(fn: Fn)
    requires Valid(fn)
  {
    forall b, s :: b in fn.blocks && s in Successors(Terminator(fn, b)) ==> s in fn.blocks
  }

  // ---------------------------------------------------------------------------
  // Literal comparison and branch conditions
  // ---------------------------------------------------------------------------

  /** Numeric equality: NaN equals nothing, not even itself. */
  predicate NumEqual(x: Num, y: Num)
  {
    match (x, y)
    case (Finite(a), Finite(b)) => a == b
    case (Inf(s), Inf(t)) => s == t
    case _ => false
  }

  /** literalStrictEquality: numbers by numeric value, every other literal by identity. */
  predicate LiteralStrictEquality(l1: Literal, l2: Literal)
  {
    if l1.LNumber? && l2.LNumber? then NumEqual(l1.n, l2.n) else l1 == l2
  }

  /**
   * literalStrictEquality is symmetric, holds of a literal and itself unless it
   * is NaN, and agrees with the constant folding of `===` wherever it holds.
   */
  lemma StrictEqualityProperties(l1: Literal, l2: Literal, arith: (BinaryOp, Num, Num) -> Num)
    ensures LiteralStrictEquality(l1, l2) <==> LiteralStrictEquality(l2, l1)
    ensures LiteralStrictEquality(l1, l1) <==> !IsNaN(l1)
    ensures !(l1.LNumber? && l2.LNumber?) ==> (LiteralStrictEquality(l1, l2) <==> l1 == l2)
    ensures l1.LNumber? && l2.LNumber? ==> (LiteralStrictEquality(l1, l2) <==> l1 == l2 && !IsNaN(l1))
    ensures LiteralStrictEquality(l1, l2) ==> EvalBinary(StrictlyEqual, l1, l2, arith) == Some(LBool(true))
  {
    if LiteralStrictEquality(l1, l2) {
      assert l1 == l2 && !IsNaN(l1);
      StrictEqualityMeaning(l1, l2, arith);
    }
  }

  /** evalToBoolean on an operand: literals by their truthiness, other values by their static type. */
  function EvalValueToBoolean(v: Value): (r: Option<bool>)
    ensures v.Lit? ==> r == EvalToBoolean(v.lit)
    ensures v.Computed? ==> (r == Some(true) <==> v.ty == TObject)
    ensures v.Computed? ==> (r == Some(false) <==> v.ty == TNull || v.ty == TUndefined)
  {
    match v
    case Lit(l) => EvalToBoolean(l)
    case Computed(_, ty) =>
      if ty == TObject then Some(true)
      else if ty == TNull || ty == TUndefined then Some(false)
      else None
  }

  // ---------------------------------------------------------------------------
  // Phi entries
  // ---------------------------------------------------------------------------

  /** The entries of `es` coming from block `b`, in order. */
  function From(es: seq<PhiEntry>, b: nat): (r: seq<PhiEntry>)
    ensures |r| <= |es|
  {
    if es == [] then []
    else if es[0].block == b then [es[0]] + From(es[1..], b)
    else From(es[1..], b)
  }

  /** The entries of `es` coming from any block other than `b`, in order. */
  function NotFrom(es: seq<PhiEntry>, b: nat): (r: seq<PhiEntry>)
    ensures |r| <= |es|
  {
    if es == [] then []
    else if es[0].block == b then NotFrom(es[1..], b)
    else [es[0]] + NotFrom(es[1..], b)
  }

  /** `es` without its first entry from `edge` (unchanged if there is none). */
  function RemoveFirstFrom(es: seq<PhiEntry>, edge: nat): seq<PhiEntry>
  {
    if es == [] then []
    else if es[0].block == edge then es[1..]
    else [es[0]] + RemoveFirstFrom(es[1..], edge)
  }

  /**
   * Removing the first entry from `edge` drops exactly that entry: the entries
   * from other blocks keep their order, and one entry from `edge` is gone if
   * there was one.
   */
  lemma {:induction false} RemoveFirstFromMeaning(es: seq<PhiEntry>, edge: nat)
    ensures NotFrom(RemoveFirstFrom(es, edge), edge) == NotFrom(es, edge)
    ensures From(RemoveFirstFrom(es, edge), edge) == if From(es, edge) == [] then [] else From(es, edge)[1..]
    ensures forall b :: b != edge ==> From(RemoveFirstFrom(es, edge), b) == From(es, b)
  {
    if es != [] {
      RemoveFirstFromMeaning(es[1..], edge);
      if es[0].block == edge {
        assert RemoveFirstFrom(es, edge) == es[1..];
        forall b | b != edge
          ensures From(RemoveFirstFrom(es, edge), b) == From(es, b)
        {
          assert From(es, b) == From(es[1..], b);
        }
      } else {
        var r := RemoveFirstFrom(es, edge);
        assert r == [es[0]] + RemoveFirstFrom(es[1..], edge);
        assert r[1..] == RemoveFirstFrom(es[1..], edge);
        forall b | b != edge
          ensures From(r, b) == From(es, b)
        {
          assert From(r, b) == (if es[0].block == b then [es[0]] else []) + From(r[1..], b);
        }
      }
    }
  }

  /** The loop's answer: cutting out the first entry from `edge` at index `k`. */
  lemma {:induction false} RemoveFirstAt(es: seq<PhiEntry>, edge: nat, k: nat)
    requires k < |es| && es[k].block == edge && forall j :: 0 <= j < k ==> es[j].block != edge
    ensures RemoveFirstFrom(es, edge) == es[..k] + es[k + 1..]
    decreases k
  {
    if k > 0 {
      RemoveFirstAt(es[1..], edge, k - 1);
      assert es[1..][..k - 1] == es[1..k];
      assert es[..k] == [es[0]] + es[1..k];
      assert es[1..][k..] == es[k + 1..];
    }
  }

  /** The loop's answer when no entry comes from `edge`. */
  lemma {:induction false} RemoveFirstAbsent(es: seq<PhiEntry>, edge: nat)
    requires forall j :: 0 <= j < |es| ==> es[j].block != edge
    ensures RemoveFirstFrom(es, edge) == es
  {
    if es != [] {
      RemoveFirstAbsent(es[1..], edge);
    }
  }

  /** An instruction with the first phi entry from `edge` removed (instructions other than phis are unchanged). */
  function WithoutFirstEntry(i: Inst, edge: nat): Inst
  {
    if i.Phi? then Phi(RemoveFirstFrom(i.entries, edge)) else i
  }

  /** The loop over one phi's entries: find the first entry from `edge` and remove it. */
  method RemovePhiEntry(es: seq<PhiEntry>, edge: nat) returns (es': seq<PhiEntry>)
    ensures es' == RemoveFirstFrom(es, edge)
  {
    es' := es;
    var i := 0;
    while i < |es|
      invariant 0 <= i <= |es|
      invariant forall j :: 0 <= j < i ==> es[j].block != edge
    {
      if es[i].block == edge {
        RemoveFirstAt(es, edge, i);
        es' := es[..i] + es[i + 1..];
        return;
      }
      i := i + 1;
    }
    RemoveFirstAbsent(es, edge);
  }

  /** removeEntryFromPhi: for every phi of the block, remove its first entry from `edge`. */
  method RemoveEntryFromPhi(blk: seq<Inst>, edge: nat) returns (blk': seq<Inst>)
    ensures |blk'| == |blk|
    ensures forall i :: 0 <= i < |blk| ==> blk'[i] == WithoutFirstEntry(blk[i], edge)
  {
    blk' := blk;
    var i := 0;
    while i < |blk|
      invariant 0 <= i <= |blk| && |blk'| == |blk|
      invariant forall j :: 0 <= j < i ==> blk'[j] == WithoutFirstEntry(blk[j], edge)
      invariant forall j :: i <= j < |blk| ==> blk'[j] == blk[j]
    {
      if blk[i].Phi? {
        var es' := RemovePhiEntry(blk[i].entries, edge);
        blk' := blk'[i := Phi(es')];
      }
      i := i + 1;
    }
  }

  /** deleteIncomingBlockFromPhis: every phi entry from `edge` removed. */
  function WithoutEntriesFrom(i: Inst, edge: nat): Inst
  {
    if i.Phi? then Phi(NotFrom(i.entries, edge)) else i
  }

  /** The phis of a block with every entry from `edge` removed. */
  function DeleteIncomingBlockFromPhis(blk: seq<Inst>, edge: nat): (r: seq<Inst>)
    ensures |r| == |blk| && forall i :: 0 <= i < |blk| ==> r[i] == WithoutEntriesFrom(blk[i], edge)
  {
    if blk == [] then [] else [WithoutEntriesFrom(blk[0], edge)] + DeleteIncomingBlockFromPhis(blk[1..], edge)
  }

  /** No phi entry remains from a block whose entries were deleted, and the other entries keep their order. */
  lemma {:induction false} NotFromMeaning(es: seq<PhiEntry>, edge: nat)
    ensures From(NotFrom(es, edge), edge) == []
    ensures forall b :: b != edge ==> From(NotFrom(es, edge), b) == From(es, b)
  {
    if es != [] {
      NotFromMeaning(es[1..], edge);
      var r := NotFrom(es, edge);
      if es[0].block != edge {
        assert r == [es[0]] + NotFrom(es[1..], edge);
        assert r[1..] == NotFrom(es[1..], edge);
      }
    }
  }

  /** `es` without its first `n` entries from `edge`. */
  function RemoveFirstN(es: seq<PhiEntry>, edge: nat, n: nat): seq<PhiEntry>
    decreases n
  {
    if n == 0 then es else RemoveFirstN(RemoveFirstFrom(es, edge), edge, n - 1)
  }

  /** How a block's phis change when a branch from `edge` is folded: some first entries from `edge` dropped, or all of them. */
  datatype PhiEdit = Drop(count: nat) | DropAll

  function EditInst(i: Inst, edge: nat, e: PhiEdit): Inst
  {
    if !i.Phi? then i
    else match e
      case Drop(n) => Phi(RemoveFirstN(i.entries, edge, n))
      case DropAll => Phi(NotFrom(i.entries, edge))
  }

  /** The effect of an edit on the entries from `edge`, in order. */
  function EditFrom(es: seq<PhiEntry>, e: PhiEdit): seq<PhiEntry>
  {
    match e
    case Drop(n) => if n <= |es| then es[n..] else []
    case DropAll => []
  }

  /** Dropping `a` first entries and then `b` more is dropping `a + b`. */
  lemma {:induction false} RemoveFirstNAdd(es: seq<PhiEntry>, edge: nat, a: nat, b: nat)
    ensures RemoveFirstN(RemoveFirstN(es, edge, a), edge, b) == RemoveFirstN(es, edge, a + b)
    decreases a
  {
    if a > 0 {
      RemoveFirstNAdd(RemoveFirstFrom(es, edge), edge, a - 1, b);
    }
  }

  /** An edit changes only the entries from `edge`, and those as `EditFrom` says. */
  lemma {:induction false} EditInstMeaning(i: Inst, edge: nat, e: PhiEdit)
    requires i.Phi?
    ensures EditInst(i, edge, e).Phi?
    ensures From(EditInst(i, edge, e).entries, edge) == EditFrom(From(i.entries, edge), e)
    ensures forall b :: b != edge ==> From(EditInst(i, edge, e).entries, b) == From(i.entries, b)
  {
    match e
    case DropAll => NotFromMeaning(i.entries, edge);
    case Drop(n) => RemoveFirstNMeaning(i.entries, edge, n);
  }

  lemma {:induction false} RemoveFirstNMeaning(es: seq<PhiEntry>, edge: nat, n: nat)
    ensures From(RemoveFirstN(es, edge, n), edge) == EditFrom(From(es, edge), Drop(n))
    ensures forall b :: b != edge ==> From(RemoveFirstN(es, edge, n), b) == From(es, b)
    decreases n
  {
    if n > 0 {
      var r := RemoveFirstFrom(es, edge);
      RemoveFirstFromMeaning(es, edge);
      RemoveFirstNMeaning(r, edge, n - 1);
      var f := From(es, edge);
      if f != [] && n <= |f| {
        assert f[1..][n - 1..] == f[n..];
      }
    }
  }

  // ---------------------------------------------------------------------------
  // Static branch targets
  // ---------------------------------------------------------------------------

  /** The destination of a switch on a literal: the first case strictly equal to it, else the default. */
  function SwitchTarget(l: Literal, defaultDest: nat, cases: seq<SwitchCase>): nat
  {
    if cases == [] then defaultDest
    else if LiteralStrictEquality(cases[0].value, l) then cases[0].dest
    else SwitchTarget(l, defaultDest, cases[1..])
  }

  /** The switch target is the first case that matches. */
  lemma {:induction false} SwitchTargetFirstMatch(l: Literal, defaultDest: nat, cases: seq<SwitchCase>, k: nat)
    requires k < |cases| && LiteralStrictEquality(cases[k].value, l)
    requires forall j :: 0 <= j < k ==> !LiteralStrictEquality(cases[j].value, l)
    ensures SwitchTarget(l, defaultDest, cases) == cases[k].dest
    decreases k
  {
    if k > 0 {
      assert !LiteralStrictEquality(cases[0].value, l);
      SwitchTargetFirstMatch(l, defaultDest, cases[1..], k - 1);
    }
  }

  /** With no matching case the switch goes to its default destination. */
  lemma {:induction false} SwitchTargetNoMatch(l: Literal, defaultDest: nat, cases: seq<SwitchCase>)
    requires forall k :: 0 <= k < |cases| ==> !LiteralStrictEquality(cases[k].value, l)
    ensures SwitchTarget(l, defaultDest, cases) == defaultDest
  {
    if cases != [] {
      assert !LiteralStrictEquality(cases[0].value, l);
      SwitchTargetNoMatch(l, defaultDest, cases[1..]);
    }
  }

  /** The switch's scan of its cases, stopping at the first match. */
  method FindSwitchDestination(l: Literal, defaultDest: nat, cases: seq<SwitchCase>) returns (dest: nat)
    ensures dest == SwitchTarget(l, defaultDest, cases)
  {
    dest := defaultDest;
    var i := 0;
    while i < |cases|
      invariant 0 <= i <= |cases|
      invariant SwitchTarget(l, defaultDest, cases) == SwitchTarget(l, defaultDest, cases[i..])
    {
      assert cases[i..][1..] == cases[i + 1..];
      if LiteralStrictEquality(cases[i].value, l) {
        dest := cases[i].dest;
        return;
      }
      i := i + 1;
    }
  }

  /**
   * Where a terminator goes when its outcome is known: a switch on a literal;
   * a conditional branch whose two targets agree or whose condition has a
   * known truth value. None for any other terminator.
   */
  function FoldTarget(t: Inst): (r: Option<nat>)
    ensures r.Some? ==> r.value in Successors(t)
    ensures r.Some? <==> ((t.Switch? && t.input.Lit?) ||
                          (t.CondBranch? && (t.trueDest == t.falseDest || EvalValueToBoolean(t.cond).Some?)))
  {
    match t
    case Switch(input, d, cases) =>
      if input.Lit? then
        var dest := SwitchTarget(input.lit, d, cases);
        SwitchTargetIsSuccessor(input.lit, d, cases);
        Some(dest)
      else None
    case CondBranch(c, x, y) =>
      if x == y then Some(x)
      else (match EvalValueToBoolean(c)
        case Some(v) => Some(if v then x else y)
        case None => None)
    case _ => None
  }

  lemma {:induction false} SwitchTargetIsSuccessor(l: Literal, d: nat, cases: seq<SwitchCase>)
    ensures SwitchTarget(l, d, cases) in Successors(Switch(Lit(l), d, cases))
  {
    if cases != [] {
      SwitchTargetIsSuccessor(l, d, cases[1..]);
      var rest := Successors(Switch(Lit(l), d, cases[1..]));
      var all := Successors(Switch(Lit(l), d, cases));
      assert all == [d] + CaseDests(cases);
      assert CaseDests(cases) == [cases[0].dest] + CaseDests(cases[1..]);
      assert forall s :: s in rest ==> s in all;
    }
  }

  /** The terminator after folding: a direct branch to the known target, or unchanged. */
  function StaticFold(t: Inst): (r: Inst)
    ensures IsTerminator(t) ==> IsTerminator(r)
    ensures FoldTarget(t).None? ==> r == t
    ensures FoldTarget(t).Some? ==> r.Branch? && r.dest in Successors(t)
    ensures FoldTarget(r).None?
  {
    match FoldTarget(t)
    case Some(d) => Branch(d)
    case None => t
  }

  /** How many entries a conditional branch to `dest` drops from the phis of `x` when it is replaced by a direct branch. */
  function CondDrops(trueDest: nat, falseDest: nat, dest: nat, x: nat): nat
  {
    (if trueDest != dest && x == trueDest then 1 else 0) + (if falseDest != dest && x == falseDest then 1 else 0)
  }

  /**
   * Which phis a rewrite of one terminator edits: a conditional branch
   * redirected to `dest` drops one entry per abandoned target; a switch
   * redirected to `dest` drops every entry from its other successors.
   */
  datatype EditPlan = Keep | CondPlan(trueDest: nat, falseDest: nat, dest: nat) | SwitchPlan(succs: seq<nat>, dest: nat)

  function PlanEdit(p: EditPlan, x: nat): PhiEdit
  {
    match p
    case Keep => Drop(0)
    case CondPlan(tD, fD, dest) => Drop(CondDrops(tD, fD, dest, x))
    case SwitchPlan(succs, dest) => if x in succs && x != dest then DropAll else Drop(0)
  }

  /** The plan for folding the terminator `t`. */
  function PlanFor(t: Inst): EditPlan
  {
    match FoldTarget(t)
    case None => Keep
    case Some(dest) =>
      if t.Switch? then SwitchPlan(Successors(t), dest) else CondPlan(t.trueDest, t.falseDest, dest)
  }

  /** How the phis of block `x` change when the terminator `t` of another block is folded. */
  function EditFor(t: Inst, x: nat): PhiEdit
  {
    PlanEdit(PlanFor(t), x)
  }

  /**
   * Only the abandoned successors of a folded branch lose entries: all of
   * them after a switch, one after a conditional branch; the target keeps its
   * entries, and so does every block that was not a successor.
   */
  lemma EditForMeaning(t: Inst, x: nat)
    ensures FoldTarget(t).None? ==> EditFor(t, x) == Drop(0)
    ensures FoldTarget(t) == Some(x) ==> EditFor(t, x) == Drop(0)
    ensures x !in Successors(t) ==> EditFor(t, x) == Drop(0)
    ensures FoldTarget(t).Some? && x in Successors(t) && FoldTarget(t) != Some(x) ==>
      (t.Switch? ==> EditFor(t, x) == DropAll) && (t.CondBranch? ==> EditFor(t, x) == Drop(1))
  {
  }

  // ---------------------------------------------------------------------------
  // Rewriting one block's terminator
  // ---------------------------------------------------------------------------

  /**
   * `blk'` is `blk` with its phis edited by `e` with respect to edges from
   * `edge`, and with its last instruction replaced by `term` when there is one.
   */
  ghost predicate BlockRewritten(blk: seq<Inst>, blk': seq<Inst>, edge: nat, term: Option<Inst>, e: PhiEdit)
  {
    |blk'| == |blk| &&
    forall i :: 0 <= i < |blk| ==>
      blk'[i] == if term.Some? && i == |blk| - 1 then term.value else EditInst(blk[i], edge, e)
  }

  /**
   * `g` is `fn` with the terminator of `bb` replaced by `term` and the phis of
   * every block edited by `plan` with respect to edges from `bb`.
   */
  ghost predicate Rewritten(fn: Fn, g: Fn, bb: nat, term: Inst, plan: EditPlan)
  {
    g.order == fn.order && g.blocks.Keys == fn.blocks.Keys &&
    forall x :: x in fn.blocks ==>
      BlockRewritten(fn.blocks[x], g.blocks[x], bb, if x == bb then Some(term) else None, PlanEdit(plan, x))
  }

  /** Dropping nothing leaves a block as it is, and conversely. */
  lemma BlockUnchanged(blk: seq<Inst>, blk': seq<Inst>, edge: nat)
    ensures BlockRewritten(blk, blk', edge, None, Drop(0)) <==> blk' == blk
  {
    if BlockRewritten(blk, blk', edge, None, Drop(0)) {
      assert forall i :: 0 <= i < |blk| ==> blk'[i] == blk[i];
    }
  }

  /** Dropping `a` entries and then `c` more is dropping `a + c`. */
  lemma BlockDropsAdd(blk: seq<Inst>, b1: seq<Inst>, b2: seq<Inst>, edge: nat, a: nat, c: nat)
    requires BlockRewritten(blk, b1, edge, None, Drop(a)) && BlockRewritten(b1, b2, edge, None, Drop(c))
    ensures BlockRewritten(blk, b2, edge, None, Drop(a + c))
  {
    forall i | 0 <= i < |blk|
      ensures b2[i] == EditInst(blk[i], edge, Drop(a + c))
    {
      if blk[i].Phi? {
        RemoveFirstNAdd(blk[i].entries, edge, a, c);
      }
    }
  }

  /** Replacing the last instruction of an edited block. */
  lemma BlockSetTerminator(blk: seq<Inst>, b1: seq<Inst>, edge: nat, e: PhiEdit, t: Inst)
    requires |blk| > 0 && BlockRewritten(blk, b1, edge, None, e)
    ensures BlockRewritten(blk, b1[..|b1| - 1] + [t], edge, Some(t), e)
  {
  }

  /** Replaces the last instruction of block `b`. */
  function SetTerminator(fn: Fn, b: nat, t: Inst): (g: Fn)
    requires b in fn.blocks && |fn.blocks[b]| > 0
    ensures g.order == fn.order && g.blocks.Keys == fn.blocks.Keys
    ensures g.blocks[b] == fn.blocks[b][..|fn.blocks[b]| - 1] + [t]
    ensures forall x :: x in fn.blocks && x != b ==> g.blocks[x] == fn.blocks[x]
  {
    Fn(fn.order, fn.blocks[b := fn.blocks[b][..|fn.blocks[b]| - 1] + [t]])
  }

  /** The phis of block `x` after `RemoveEntryFromPhi`. */
  method RemoveEntryFromPhiIn(fn: Fn, x: nat, edge: nat) returns (g: Fn)
    requires x in fn.blocks
    ensures g.order == fn.order && g.blocks.Keys == fn.blocks.Keys
    ensures forall y :: y in fn.blocks && y != x ==> g.blocks[y] == fn.blocks[y]
    ensures BlockRewritten(fn.blocks[x], g.blocks[x], edge, None, Drop(1))
  {
    var blk := RemoveEntryFromPhi(fn.blocks[x], edge);
    g := fn.(blocks := fn.blocks[x := blk]);
  }

  /**
   * replaceCondBranchWithDirectBranch: the conditional branch of `bb` becomes a
   * direct branch to `dest`; each target other than `dest` loses its first
   * phi entry from `bb`.
   */
  method ReplaceCondBranchWithDirectBranch(fn: Fn, bb: nat, dest: nat) returns (g: Fn)
    requires Valid(fn) && Closed(fn) && bb in fn.blocks && Terminator(fn, bb).CondBranch?
    ensures var t := Terminator(fn, bb);
            Rewritten(fn, g, bb, Branch(dest), CondPlan(t.trueDest, t.falseDest, dest))
  {
    var t := Terminator(fn, bb);
    var g2 := DropCondEntries(fn, bb, dest);
    g := SetTerminator(g2, bb, Branch(dest));
    BlockSetTerminator(fn.blocks[bb], g2.blocks[bb], bb, Drop(CondDrops(t.trueDest, t.falseDest, dest, bb)), Branch(dest));
    ghost var plan := CondPlan(t.trueDest, t.falseDest, dest);
    forall x | x in fn.blocks
      ensures BlockRewritten(fn.blocks[x], g.blocks[x], bb, if x == bb then Some(Branch(dest)) else None, PlanEdit(plan, x))
    {
      if x != bb {
        assert g.blocks[x] == g2.blocks[x];
      }
    }
  }

  /** The phi edits of replaceCondBranchWithDirectBranch: each abandoned successor loses the entry for `bb`. */
  method DropCondEntries(fn: Fn, bb: nat, dest: nat) returns (g: Fn)
    requires Valid(fn) && Closed(fn) && bb in fn.blocks && Terminator(fn, bb).CondBranch?
    ensures g.order == fn.order && g.blocks.Keys == fn.blocks.Keys
    ensures var t := Terminator(fn, bb);
      forall x :: x in fn.blocks ==>
        BlockRewritten(fn.blocks[x], g.blocks[x], bb, None, Drop(CondDrops(t.trueDest, t.falseDest, dest, x)))
  {
    var t := Terminator(fn, bb);
    assert t.trueDest in Successors(t) && t.falseDest in Successors(t);
    g := fn;
    if t.trueDest != dest {
      g := RemoveEntryFromPhiIn(g, t.trueDest, bb);
    }
    ghost var g1 := g;
    if t.falseDest != dest {
      g := RemoveEntryFromPhiIn(g, t.falseDest, bb);
    }
    forall x | x in fn.blocks
      ensures BlockRewritten(fn.blocks[x], g.blocks[x], bb, None, Drop(CondDrops(t.trueDest, t.falseDest, dest, x)))
    {
      var a := if t.trueDest != dest && x == t.trueDest then 1 else 0;
      var c := if t.falseDest != dest && x == t.falseDest then 1 else 0;
      BlockUnchanged(fn.blocks[x], g1.blocks[x], bb);
      BlockUnchanged(g1.blocks[x], g.blocks[x], bb);
      BlockDropsAdd(fn.blocks[x], g1.blocks[x], g.blocks[x], bb, a, c);
    }
  }

  /** deleteIncomingBlockFromPhis applied to block `x` of the function. */
  function DeleteIncomingIn(fn: Fn, x: nat, edge: nat): (g: Fn)
    requires x in fn.blocks
    ensures g.order == fn.order && g.blocks.Keys == fn.blocks.Keys
    ensures forall y :: y in fn.blocks && y != x ==> g.blocks[y] == fn.blocks[y]
    ensures BlockRewritten(fn.blocks[x], g.blocks[x], edge, None, DropAll)
  {
    fn.(blocks := fn.blocks[x := DeleteIncomingBlockFromPhis(fn.blocks[x], edge)])
  }

  /** Deleting the entries from a block twice is deleting them once. */
  lemma {:induction false} NotFromIdempotent(es: seq<PhiEntry>, edge: nat)
    ensures NotFrom(NotFrom(es, edge), edge) == NotFrom(es, edge)
  {
    if es != [] {
      NotFromIdempotent(es[1..], edge);
      if es[0].block != edge {
        assert NotFrom(es, edge)[1..] == NotFrom(es[1..], edge);
      }
    }
  }

  lemma BlockDropAllTwice(blk: seq<Inst>, b1: seq<Inst>, b2: seq<Inst>, edge: nat)
    requires BlockRewritten(blk, b1, edge, None, DropAll) && BlockRewritten(b1, b2, edge, None, DropAll)
    ensures b2 == b1
  {
    forall i | 0 <= i < |blk|
      ensures b2[i] == b1[i]
    {
      if blk[i].Phi? {
        NotFromIdempotent(blk[i].entries, edge);
      }
    }
  }

  /** The switch's loop over its successors: each one other than `dest` loses all its phi entries from `bb`. */
  method DeleteIncomingFromSuccessors(fn: Fn, bb: nat, succs: seq<nat>, dest: nat) returns (g: Fn)
    requires forall s :: s in succs ==> s in fn.blocks
    ensures g.order == fn.order && g.blocks.Keys == fn.blocks.Keys
    ensures forall x :: x in fn.blocks ==>
      BlockRewritten(fn.blocks[x], g.blocks[x], bb, None, if x in succs && x != dest then DropAll else Drop(0))
  {
    g := fn;
    ghost var seen: set<nat> := {};
    var i := 0;
    while i < |succs|
      invariant 0 <= i <= |succs|
      invariant g.order == fn.order && g.blocks.Keys == fn.blocks.Keys
      invariant forall k :: 0 <= k < i ==> succs[k] in seen
      invariant forall x :: x in seen ==> x in succs
      invariant forall x :: x in fn.blocks ==>
        BlockRewritten(fn.blocks[x], g.blocks[x], bb, None, if x in seen && x != dest then DropAll else Drop(0))
    {
      var s := succs[i];
      if s != dest {
        ghost var before := g;
        g := DeleteIncomingIn(g, s, bb);
        if s in seen {
          BlockDropAllTwice(fn.blocks[s], before.blocks[s], g.blocks[s], bb);
        } else {
          BlockUnchanged(fn.blocks[s], before.blocks[s], bb);
        }
      }
      seen := seen + {s};
      i := i + 1;
    }
  }

  /**
   * simplifySwitchInst: a switch on a literal becomes a direct branch to the
   * first strictly-equal case (else the default), and every other successor
   * loses all its phi entries from `bb`; any other switch is left alone.
   */
  method SimplifySwitchInst(fn: Fn, bb: nat) returns (g: Fn, changed: bool)
    requires Valid(fn) && Closed(fn) && bb in fn.blocks && Terminator(fn, bb).Switch?
    ensures changed <==> Terminator(fn, bb).input.Lit?
    ensures !changed ==> g == fn
    ensures var t := Terminator(fn, bb); Rewritten(fn, g, bb, StaticFold(t), PlanFor(t))
  {
    var t := Terminator(fn, bb);
    if !t.input.Lit? {
      RewrittenKeep(fn, bb);
      return fn, false;
    }
    var dest := FindSwitchDestination(t.input.lit, t.defaultDest, t.cases);
    assert forall s :: s in Successors(t) ==> s in fn.blocks;
    g := DeleteIncomingFromSuccessors(fn, bb, Successors(t), dest);
    ghost var g2 := g;
    g := SetTerminator(g, bb, Branch(dest));
    BlockSetTerminator(fn.blocks[bb], g2.blocks[bb], bb, EditFor(t, bb), Branch(dest));
    changed := true;
  }

  /** Leaving a block alone is a rewrite that changes nothing. */
  lemma RewrittenKeep(fn: Fn, bb: nat)
    requires Valid(fn) && bb in fn.blocks
    ensures Rewritten(fn, fn, bb, Terminator(fn, bb), Keep)
  {
    forall x | x in fn.blocks
      ensures BlockRewritten(fn.blocks[x], fn.blocks[x], bb, if x == bb then Some(Terminator(fn, bb)) else None, Drop(0))
    {
      BlockUnchanged(fn.blocks[x], fn.blocks[x], bb);
    }
  }

  /** A rewrite to a terminator whose successors are blocks keeps the function well formed. */
  lemma RewrittenValid(fn: Fn, g: Fn, bb: nat, term: Inst, plan: EditPlan)
    requires Valid(fn) && bb in fn.blocks && Rewritten(fn, g, bb, term, plan)
    requires IsTerminator(term)
    ensures Valid(g)
    ensures Terminator(g, bb) == term
    ensures forall x :: x in fn.blocks && x != bb ==> Terminator(g, x) == Terminator(fn, x)
  {
    forall x, i | x in g.blocks && 0 <= i < |g.blocks[x]| - 1
      ensures !IsTerminator(g.blocks[x][i])
    {
      assert g.blocks[x][i] == EditInst(fn.blocks[x][i], bb, PlanEdit(plan, x));
    }
    forall x | x in g.blocks
      ensures g.blocks[x][|g.blocks[x]| - 1] == if x == bb then term else fn.blocks[x][|fn.blocks[x]| - 1]
    {
      var last := |fn.blocks[x]| - 1;
      assert BlockRewritten(fn.blocks[x], g.blocks[x], bb, if x == bb then Some(term) else None, PlanEdit(plan, x));
      if x != bb {
        assert IsTerminator(fn.blocks[x][last]);
      }
    }
  }

  /** Replacing one terminator by one whose targets are blocks keeps every target a block. */
  lemma RewrittenClosed(fn: Fn, g: Fn, bb: nat, term: Inst)
    requires Valid(fn) && Closed(fn) && Valid(g) && g.blocks.Keys == fn.blocks.Keys && bb in fn.blocks
    requires Terminator(g, bb) == term && forall s :: s in Successors(term) ==> s in fn.blocks
    requires forall x :: x in fn.blocks && x != bb ==> Terminator(g, x) == Terminator(fn, x)
    ensures Closed(g)
  {
  }

  /**
   * One step of the first loop of optimizeStaticBranches: a switch is
   * simplified; a conditional branch whose targets agree, or whose condition
   * has a known truth value, becomes a direct branch.
   */
  method FoldBranch(fn: Fn, bb: nat) returns (g: Fn, changed: bool)
    requires Valid(fn) && Closed(fn) && bb in fn.blocks
    ensures changed <==> FoldTarget(Terminator(fn, bb)).Some?
    ensures !changed ==> g == fn
    ensures var t := Terminator(fn, bb); Rewritten(fn, g, bb, StaticFold(t), PlanFor(t))
  {
    var t := Terminator(fn, bb);
    if t.Switch? {
      g, changed := SimplifySwitchInst(fn, bb);
      return;
    }
    if !t.CondBranch? {
      RewrittenKeep(fn, bb);
      return fn, false;
    }
    if t.trueDest == t.falseDest {
      g := ReplaceCondBranchWithDirectBranch(fn, bb, t.trueDest);
      return g, true;
    }
    match EvalValueToBoolean(t.cond)
    case Some(v) =>
      g := ReplaceCondBranchWithDirectBranch(fn, bb, if v then t.trueDest else t.falseDest);
      changed := true;
    case None =>
      RewrittenKeep(fn, bb);
      g, changed := fn, false;
  }

  /** How the phis of block `x` change when block `b` of `fn` is folded (nothing when `b` is not a block). */
  function FoldEdit(fn: Fn, b: nat, x: nat): PhiEdit
  {
    if b in fn.blocks && |fn.blocks[b]| > 0 then EditFor(fn.blocks[b][|fn.blocks[b]| - 1], x) else Drop(0)
  }

  /**
   * Block `x` of `fn` after folding the blocks in `done`: its terminator is
   * folded when `x` is done; each phi keeps, for every block `b`, its entries
   * from `b` except those `b`'s folding drops; every other instruction stays.
   */
  ghost predicate BlockFolded(fn: Fn, blk: seq<Inst>, blk': seq<Inst>, x: nat, done: set<nat>)
  {
    |blk'| == |blk| && |blk| > 0 &&
    blk'[|blk| - 1] == (if x in done then StaticFold(blk[|blk| - 1]) else blk[|blk| - 1]) &&
    forall i :: 0 <= i < |blk| - 1 ==>
      if blk[i].Phi? then
        blk'[i].Phi? &&
        forall b :: From(blk'[i].entries, b) ==
          if b in done then EditFrom(From(blk[i].entries, b), FoldEdit(fn, b, x)) else From(blk[i].entries, b)
      else blk'[i] == blk[i]
  }

  ghost predicate Folded(fn: Fn, g: Fn, done: set<nat>)
  {
    g.order == fn.order && g.blocks.Keys == fn.blocks.Keys &&
    forall x :: x in fn.blocks ==> BlockFolded(fn, fn.blocks[x], g.blocks[x], x, done)
  }

  lemma FoldedTerminator(fn: Fn, g: Fn, done: set<nat>, b: nat)
    requires Folded(fn, g, done) && b in fn.blocks
    ensures g.blocks[b][|g.blocks[b]| - 1] ==
      if b in done then StaticFold(fn.blocks[b][|fn.blocks[b]| - 1]) else fn.blocks[b][|fn.blocks[b]| - 1]
  {
    assert BlockFolded(fn, fn.blocks[b], g.blocks[b], b, done);
  }

  lemma FoldedNothing(fn: Fn)
    requires Valid(fn)
    ensures Folded(fn, fn, {})
  {
  }

  /** Folding one more block composes with the blocks folded so far. */
  lemma FoldedStep(fn: Fn, g: Fn, g': Fn, bb: nat, done: set<nat>)
    requires Valid(fn) && bb in fn.blocks && bb !in done
    requires Folded(fn, g, done) && Valid(g)
    requires Rewritten(g, g', bb, StaticFold(Terminator(fn, bb)), PlanFor(Terminator(fn, bb)))
    ensures Folded(fn, g', done + {bb})
  {
    var t := Terminator(fn, bb);
    forall x | x in fn.blocks
      ensures BlockFolded(fn, fn.blocks[x], g'.blocks[x], x, done + {bb})
    {
      assert IsTerminator(fn.blocks[x][|fn.blocks[x]| - 1]);
      assert BlockFolded(fn, fn.blocks[x], g.blocks[x], x, done);
      assert BlockRewritten(g.blocks[x], g'.blocks[x], bb, if x == bb then Some(StaticFold(t)) else None, PlanEdit(PlanFor(t), x));
      assert PlanEdit(PlanFor(t), x) == FoldEdit(fn, bb, x);
      BlockFoldedStep(fn, fn.blocks[x], g.blocks[x], g'.blocks[x], x, bb, done);
    }
  }

  lemma BlockFoldedStep(fn: Fn, blk: seq<Inst>, b1: seq<Inst>, b2: seq<Inst>, x: nat, bb: nat, done: set<nat>)
    requires Valid(fn) && bb in fn.blocks && bb !in done
    requires BlockFolded(fn, blk, b1, x, done) && !blk[|blk| - 1].Phi?
    requires x == bb ==> blk == fn.blocks[bb]
    requires BlockRewritten(b1, b2, bb, if x == bb then Some(StaticFold(Terminator(fn, bb))) else None,
                            FoldEdit(fn, bb, x))
    ensures BlockFolded(fn, blk, b2, x, done + {bb})
  {
    forall i | 0 <= i < |blk| - 1 && blk[i].Phi?
      ensures b2[i].Phi? &&
        forall b :: From(b2[i].entries, b) ==
          if b in done + {bb} then EditFrom(From(blk[i].entries, b), FoldEdit(fn, b, x)) else From(blk[i].entries, b)
    {
      EditInstMeaning(b1[i], bb, FoldEdit(fn, bb, x));
    }
    if x != bb {
      var last := |blk| - 1;
      assert b2[last] == EditInst(b1[last], bb, FoldEdit(fn, bb, x));
      assert !b1[last].Phi?;
    }
  }

  lemma DistinctPrefix(s: seq<nat>, i: nat)
    requires Distinct(s) && i < |s|
    ensures s[..i + 1] == s[..i] + [s[i]] && s[i] !in s[..i]
  {
    assert forall k :: 0 <= k < i ==> s[..i][k] == s[k];
  }

  lemma FoldLoopStep(fn: Fn, g: Fn, g': Fn, bb: nat, done: set<nat>)
    requires Valid(fn) && bb in fn.blocks && bb !in done
    requires Valid(g) && Closed(g) && Folded(fn, g, done) && g.blocks.Keys == fn.blocks.Keys
    requires Terminator(g, bb) == Terminator(fn, bb)
    requires Rewritten(g, g', bb, StaticFold(Terminator(fn, bb)), PlanFor(Terminator(fn, bb)))
    ensures Valid(g') && Closed(g') && Folded(fn, g', done + {bb})
  {
    var t := Terminator(fn, bb);
    RewrittenValid(g, g', bb, StaticFold(t), PlanFor(t));
    RewrittenClosed(g, g', bb, StaticFold(t));
    FoldedStep(fn, g, g', bb, done);
  }

  /**
   * The first loop of optimizeStaticBranches: every block's branch is folded
   * in turn. The result has every terminator folded; each phi lost exactly
   * the entries the folded branches abandoned; nothing else changed.
   */
  method FoldStaticBranches(fn: Fn) returns (g: Fn, changed: bool)
    requires Valid(fn) && Closed(fn)
    ensures Valid(g) && Closed(g) && Folded(fn, g, fn.blocks.Keys)
    ensures changed <==> exists b :: b in fn.blocks && FoldTarget(Terminator(fn, b)).Some?
    ensures !changed ==> g == fn
  {
    g, changed := fn, false;
    ghost var done: set<nat> := {};
    ghost var folded: set<nat> := {};
    var i := 0;
    while i < |fn.order|
      invariant 0 <= i <= |fn.order|
      invariant forall b :: b in done <==> b in fn.order[..i]
      invariant Valid(g) && Closed(g) && Folded(fn, g, done)
      invariant forall b :: b in folded <==> b in done && FoldTarget(Terminator(fn, b)).Some?
      invariant changed <==> folded != {}
      invariant folded == {} ==> g == fn
    {
      g, changed, done, folded := FoldNext(fn, i, g, changed, done, folded);
      i := i + 1;
    }
    assert fn.order[..i] == fn.order;
    assert done == fn.blocks.Keys;
    if changed {
      ghost var b :| b in folded;
    }
  }

  /** One iteration of the first loop of optimizeStaticBranches: the `i`-th block's branch is folded. */
  method FoldNext(fn: Fn, i: nat, g: Fn, changed: bool, ghost done: set<nat>, ghost folded: set<nat>)
    returns (g': Fn, changed': bool, ghost done': set<nat>, ghost folded': set<nat>)
    requires Valid(fn) && Closed(fn) && i < |fn.order|
    requires forall b :: b in done <==> b in fn.order[..i]
    requires Valid(g) && Closed(g) && Folded(fn, g, done)
    requires forall b :: b in folded <==> b in done && FoldTarget(Terminator(fn, b)).Some?
    requires changed <==> folded != {}
    requires folded == {} ==> g == fn
    ensures forall b :: b in done' <==> b in fn.order[..i + 1]
    ensures Valid(g') && Closed(g') && Folded(fn, g', done')
    ensures forall b :: b in folded' <==> b in done' && FoldTarget(Terminator(fn, b)).Some?
    ensures changed' <==> folded' != {}
    ensures folded' == {} ==> g' == fn
  {
    var bb := fn.order[i];
    DistinctPrefix(fn.order, i);
    FoldedTerminator(fn, g, done, bb);
    ghost var t := Terminator(g, bb);
    assert t == Terminator(fn, bb);
    var c;
    g', c := FoldBranch(g, bb);
    FoldLoopStep(fn, g, g', bb, done);
    changed' := changed || c;
    done' := done + {bb};
    folded' := if c then folded + {bb} else folded;
  }

  // ---------------------------------------------------------------------------
  // Block uses: replaceAllUsesWith, predecessors, removal
  // ---------------------------------------------------------------------------

  /** The block operands of an instruction: phi entry blocks, branch targets, other block operands. */
  function Operands(i: Inst): seq<nat>
  {
    match i
    case Phi(es) => EntryBlocks(es)
    case Other(bs, _) => bs
    case _ => Successors(i)
  }

  function EntryBlocks(es: seq<PhiEntry>): (r: seq<nat>)
    ensures |r| == |es| && forall k :: 0 <= k < |es| ==> r[k] == es[k].block
  {
    if es == [] then [] else [es[0].block] + EntryBlocks(es[1..])
  }

  function Rename(b: nat, from: nat, to: nat): nat
  {
    if b == from then to else b
  }

  function RenameAll(bs: seq<nat>, from: nat, to: nat): (r: seq<nat>)
    ensures |r| == |bs| && forall k :: 0 <= k < |bs| ==> r[k] == Rename(bs[k], from, to)
  {
    if bs == [] then [] else [Rename(bs[0], from, to)] + RenameAll(bs[1..], from, to)
  }

  function RenameEntries(es: seq<PhiEntry>, from: nat, to: nat): (r: seq<PhiEntry>)
    ensures |r| == |es| && forall k :: 0 <= k < |es| ==> r[k] == PhiEntry(es[k].value, Rename(es[k].block, from, to))
  {
    if es == [] then [] else [PhiEntry(es[0].value, Rename(es[0].block, from, to))] + RenameEntries(es[1..], from, to)
  }

  function RenameCases(cases: seq<SwitchCase>, from: nat, to: nat): (r: seq<SwitchCase>)
    ensures |r| == |cases| && forall k :: 0 <= k < |cases| ==> r[k] == SwitchCase(cases[k].value, Rename(cases[k].dest, from, to))
  {
    if cases == [] then [] else [SwitchCase(cases[0].value, Rename(cases[0].dest, from, to))] + RenameCases(cases[1..], from, to)
  }

  /** replaceAllUsesWith on one instruction: every block operand `from` becomes `to`. */
  function ReplaceUses(i: Inst, from: nat, to: nat): Inst
  {
    match i
    case Phi(es) => Phi(RenameEntries(es, from, to))
    case Branch(d) => Branch(Rename(d, from, to))
    case CondBranch(c, x, y) => CondBranch(c, Rename(x, from, to), Rename(y, from, to))
    case Switch(v, d, cases) =>
      Switch(v, Rename(d, from, to), RenameCases(cases, from, to))
    case ForIn(ts) => ForIn(RenameAll(ts, from, to))
    case Other(bs, term) => Other(RenameAll(bs, from, to), term)
  }

  /** Renaming keeps the instruction's kind and renames exactly its block operands. */
  lemma ReplaceUsesMeaning(i: Inst, from: nat, to: nat)
    ensures IsTerminator(ReplaceUses(i, from, to)) == IsTerminator(i)
    ensures ReplaceUses(i, from, to).Phi? == i.Phi? && ReplaceUses(i, from, to).Branch? == i.Branch?
    ensures Operands(ReplaceUses(i, from, to)) == RenameAll(Operands(i), from, to)
    ensures Successors(ReplaceUses(i, from, to)) == RenameAll(Successors(i), from, to)
  {
    if i.Switch? {
      var r := ReplaceUses(i, from, to);
      CaseDestsRenamed(i.cases, r.cases, from, to);
    }
  }

  lemma CaseDestsRenamed(cases: seq<SwitchCase>, cases': seq<SwitchCase>, from: nat, to: nat)
    requires |cases'| == |cases| && forall k :: 0 <= k < |cases| ==> cases'[k].dest == Rename(cases[k].dest, from, to)
    ensures CaseDests(cases') == RenameAll(CaseDests(cases), from, to)
  {
  }

  /** An instruction whose operands do not mention `from` is left as it is. */
  lemma ReplaceUsesUnused(i: Inst, from: nat, to: nat)
    requires from !in Operands(i)
    ensures ReplaceUses(i, from, to) == i
  {
    match i
    case Phi(es) =>
      assert forall k :: 0 <= k < |es| ==> Operands(i)[k] == es[k].block;
      assert ReplaceUses(i, from, to).entries == es;
    case Switch(v, d, cases) =>
      assert forall k :: 0 <= k < |cases| ==> Operands(i)[k + 1] == cases[k].dest;
      assert ReplaceUses(i, from, to).cases == cases;
    case _ =>
  }

  function ReplaceUsesInBlock(blk: seq<Inst>, from: nat, to: nat): (r: seq<Inst>)
    ensures |r| == |blk| && forall k :: 0 <= k < |blk| ==> r[k] == ReplaceUses(blk[k], from, to)
  {
    if blk == [] then [] else [ReplaceUses(blk[0], from, to)] + ReplaceUsesInBlock(blk[1..], from, to)
  }

  /** BasicBlock::replaceAllUsesWith: every use of block `from` in the function becomes a use of `to`. */
  function ReplaceAllUsesOfBlock(fn: Fn, from: nat, to: nat): (g: Fn)
    ensures g.order == fn.order && g.blocks.Keys == fn.blocks.Keys
    ensures forall x :: x in fn.blocks ==> g.blocks[x] == ReplaceUsesInBlock(fn.blocks[x], from, to)
  {
    Fn(fn.order, map x | x in fn.blocks :: ReplaceUsesInBlock(fn.blocks[x], from, to))
  }

  /** No instruction of the function names block `b`. */
  ghost predicate Unused(fn: Fn, b: nat)
  {
    forall x, i :: x in fn.blocks && 0 <= i < |fn.blocks[x]| ==> b !in Operands(fn.blocks[x][i])
  }

  /**
   * After replaceAllUsesWith no instruction names `from`, the function keeps
   * its shape, and every branch target is still a block when `to` is one.
   */
  lemma ReplaceAllUsesMeaning(fn: Fn, from: nat, to: nat)
    requires Valid(fn) && from != to
    ensures Valid(ReplaceAllUsesOfBlock(fn, from, to))
    ensures Unused(ReplaceAllUsesOfBlock(fn, from, to), from)
    ensures forall x :: x in fn.blocks ==>
      Terminator(ReplaceAllUsesOfBlock(fn, from, to), x) == ReplaceUses(Terminator(fn, x), from, to)
    ensures Closed(fn) && to in fn.blocks ==> Closed(ReplaceAllUsesOfBlock(fn, from, to))
  {
    RenamedShape(fn, from, to);
    RenamedUnused(fn, from, to);
    if Closed(fn) && to in fn.blocks {
      RenameClosed(fn, ReplaceAllUsesOfBlock(fn, from, to), from, to);
    }
  }

  lemma RenamedShape(fn: Fn, from: nat, to: nat)
    requires Valid(fn)
    ensures Valid(ReplaceAllUsesOfBlock(fn, from, to))
    ensures forall x :: x in fn.blocks ==>
      Terminator(ReplaceAllUsesOfBlock(fn, from, to), x) == ReplaceUses(Terminator(fn, x), from, to)
  {
    var g := ReplaceAllUsesOfBlock(fn, from, to);
    forall x | x in fn.blocks ensures Shaped(g.blocks[x]) {
      RenamedBlockShaped(fn.blocks[x], from, to);
    }
  }

  lemma RenamedBlockShaped(blk: seq<Inst>, from: nat, to: nat)
    requires Shaped(blk)
    ensures Shaped(ReplaceUsesInBlock(blk, from, to))
  {
    var r := ReplaceUsesInBlock(blk, from, to);
    forall i | 0 <= i < |blk| ensures IsTerminator(r[i]) == IsTerminator(blk[i]) {
      ReplaceUsesMeaning(blk[i], from, to);
    }
  }

  lemma RenamedUnused(fn: Fn, from: nat, to: nat)
    requires from != to
    ensures Unused(ReplaceAllUsesOfBlock(fn, from, to), from)
  {
    var g := ReplaceAllUsesOfBlock(fn, from, to);
    forall x, i | x in g.blocks && 0 <= i < |g.blocks[x]| ensures from !in Operands(g.blocks[x][i]) {
      var ins := fn.blocks[x][i];
      assert g.blocks[x][i] == ReplaceUses(ins, from, to);
      ReplaceUsesMeaning(ins, from, to);
    }
  }

  lemma RenameClosed(fn: Fn, g: Fn, from: nat, to: nat)
    requires Valid(fn) && Closed(fn) && to in fn.blocks && Valid(g) && g == ReplaceAllUsesOfBlock(fn, from, to)
    ensures Closed(g)
  {
    forall x, s | x in g.blocks && s in Successors(Terminator(g, x))
      ensures s in g.blocks
    {
      var t := Terminator(fn, x);
      assert g.blocks[x] == ReplaceUsesInBlock(fn.blocks[x], from, to);
      assert Terminator(g, x) == ReplaceUses(t, from, to);
      ReplaceUsesMeaning(t, from, to);
      RenameAllIn(Successors(t), from, to, s);
    }
  }

  lemma {:induction false} RenameAllIn(bs: seq<nat>, from: nat, to: nat, s: nat)
    requires s in RenameAll(bs, from, to)
    ensures s == to || (s in bs && s != from)
  {
    if bs != [] && s != Rename(bs[0], from, to) {
      assert RenameAll(bs, from, to) == [Rename(bs[0], from, to)] + RenameAll(bs[1..], from, to);
      RenameAllIn(bs[1..], from, to, s);
    }
  }

  /** How many branch-target slots of the terminators in `xs` name `b`. */
  function PredCountIn(fn: Fn, xs: seq<nat>, b: nat): nat
  {
    if xs == [] then 0
    else
      var x := xs[0];
      (if x in fn.blocks && |fn.blocks[x]| > 0 then Count(Successors(fn.blocks[x][|fn.blocks[x]| - 1]), b) else 0) +
      PredCountIn(fn, xs[1..], b)
  }

  function Count(s: seq<nat>, b: nat): nat
  {
    if s == [] then 0 else (if s[0] == b then 1 else 0) + Count(s[1..], b)
  }

  /** pred_count: the number of predecessor edges of `b`, one per branch-target slot naming it. */
  function PredCount(fn: Fn, b: nat): nat
  {
    PredCountIn(fn, fn.order, b)
  }

  lemma {:induction false} CountAbsent(s: seq<nat>, b: nat)
    requires b !in s
    ensures Count(s, b) == 0
  {
    if s != [] {
      CountAbsent(s[1..], b);
    }
  }

  lemma {:induction false} CountPositive(s: seq<nat>, b: nat)
    requires b in s
    ensures Count(s, b) > 0
  {
    if s[0] != b {
      CountPositive(s[1..], b);
    }
  }

  /** pred_count is zero exactly when no terminator of the listed blocks branches to `b`. */
  lemma {:induction false} PredCountInZero(fn: Fn, xs: seq<nat>, b: nat)
    requires Valid(fn)
    ensures PredCountIn(fn, xs, b) == 0 <==>
      forall k :: 0 <= k < |xs| && xs[k] in fn.blocks ==> b !in Successors(Terminator(fn, xs[k]))
  {
    if xs != [] {
      PredCountInZero(fn, xs[1..], b);
      var x := xs[0];
      if x in fn.blocks {
        if b in Successors(Terminator(fn, x)) {
          CountPositive(Successors(Terminator(fn, x)), b);
        } else {
          CountAbsent(Successors(Terminator(fn, x)), b);
        }
      }
      assert forall k :: 1 <= k < |xs| ==> xs[k] == xs[1..][k - 1];
    }
  }

  /** After every use of `from` is redirected elsewhere, `from` has no predecessor left. */
  lemma RedirectLeavesNoPredecessors(fn: Fn, from: nat, to: nat)
    requires Valid(fn) && from != to
    ensures PredCount(ReplaceAllUsesOfBlock(fn, from, to), from) == 0
  {
    var g := ReplaceAllUsesOfBlock(fn, from, to);
    ReplaceAllUsesMeaning(fn, from, to);
    forall k | 0 <= k < |g.order| && g.order[k] in g.blocks
      ensures from !in Successors(Terminator(g, g.order[k]))
    {
      var t := Terminator(fn, g.order[k]);
      ReplaceUsesMeaning(t, from, to);
      assert Operands(ReplaceUses(t, from, to)) == Successors(ReplaceUses(t, from, to)) || ReplaceUses(t, from, to).Other?;
    }
    PredCountInZero(g, g.order, from);
  }

  /** `s` without `b`. */
  function Without(s: seq<nat>, b: nat): (r: seq<nat>)
    ensures forall x :: x in r <==> x in s && x != b
  {
    if s == [] then [] else (if s[0] == b then [] else [s[0]]) + Without(s[1..], b)
  }

  lemma {:induction false} WithoutDistinct(s: seq<nat>, b: nat)
    requires Distinct(s)
    ensures Distinct(Without(s, b))
  {
    if s != [] {
      DistinctTail(s);
      WithoutDistinct(s[1..], b);
      if s[0] != b {
        DistinctCons(s[0], Without(s[1..], b));
      }
    }
  }

  /** BasicBlock::eraseFromParent: block `b` leaves the function's list and its map. */
  function EraseBlock(fn: Fn, b: nat): (g: Fn)
    ensures g.order == Without(fn.order, b) && g.blocks == fn.blocks - {b}
    ensures g.blocks.Keys == fn.blocks.Keys - {b}
  {
    Fn(Without(fn.order, b), fn.blocks - {b})
  }

  /** Erasing a block that nothing names keeps the function well formed and closed. */
  lemma EraseUnusedBlock(fn: Fn, b: nat)
    requires Valid(fn) && Unused(fn, b)
    ensures Valid(EraseBlock(fn, b))
    ensures Closed(fn) ==> Closed(EraseBlock(fn, b))
  {
    WithoutDistinct(fn.order, b);
    if Closed(fn) {
      EraseUnusedClosed(fn, b);
    }
  }

  lemma EraseUnusedClosed(fn: Fn, b: nat)
    requires Valid(fn) && Closed(fn) && Unused(fn, b) && Valid(EraseBlock(fn, b))
    ensures Closed(EraseBlock(fn, b))
  {
    var g := EraseBlock(fn, b);
    forall x, s | x in g.blocks && s in Successors(Terminator(g, x))
      ensures s in g.blocks
    {
      var t := Terminator(fn, x);
      assert Terminator(g, x) == t;
      SuccessorsAreOperands(t);
      assert b !in Operands(fn.blocks[x][|fn.blocks[x]| - 1]);
    }
  }

  lemma SuccessorsAreOperands(t: Inst)
    ensures forall s :: s in Successors(t) ==> s in Operands(t)
  {
  }

  /** The slurp loop: the instructions of `dest` move, one by one, to the end of `blk` (whose branch is dropped). */
  method SlurpInstructions(blk: seq<Inst>, destBlk: seq<Inst>) returns (merged: seq<Inst>)
    requires |blk| > 0
    ensures merged == blk[..|blk| - 1] + destBlk
  {
    merged := blk[..|blk| - 1];
    var k := 0;
    while k < |destBlk|
      invariant 0 <= k <= |destBlk| && merged == blk[..|blk| - 1] + destBlk[..k]
    {
      assert destBlk[..k + 1] == destBlk[..k] + [destBlk[k]];
      merged := merged + [destBlk[k]];
      k := k + 1;
    }
    assert destBlk[..k] == destBlk;
  }

  /**
   * Merging `bb` with its only successor `dest`: the instructions of `dest`
   * replace the branch of `bb`, every use of `dest` becomes a use of `bb`, and
   * `dest` is erased. The function stays well formed and `dest` is gone.
   */
  method MergeBlocks(fn: Fn, bb: nat, dest: nat) returns (g: Fn)
    requires Valid(fn) && bb in fn.blocks && dest in fn.blocks && bb != dest
    ensures g.order == Without(fn.order, dest) && g.blocks.Keys == fn.blocks.Keys - {dest}
    ensures g.blocks[bb] == ReplaceUsesInBlock(fn.blocks[bb][..|fn.blocks[bb]| - 1] + fn.blocks[dest], dest, bb)
    ensures forall x :: x in g.blocks && x != bb ==> g.blocks[x] == ReplaceUsesInBlock(fn.blocks[x], dest, bb)
    ensures Valid(g) && Unused(g, dest)
    ensures Closed(fn) ==> Closed(g)
  {
    var merged := SlurpInstructions(fn.blocks[bb], fn.blocks[dest]);
    var g1 := fn.(blocks := fn.blocks[bb := merged]);
    assert g1.blocks.Keys == fn.blocks.Keys;
    MergedValid(fn, g1, bb, dest);
    if Closed(fn) {
      MergedClosed(fn, g1, bb, dest);
    }
    var g2 := ReplaceAllUsesOfBlock(g1, dest, bb);
    ReplaceAllUsesMeaning(g1, dest, bb);
    assert g2.blocks[bb] == ReplaceUsesInBlock(merged, dest, bb);
    EraseUnusedBlock(g2, dest);
    g := EraseBlock(g2, dest);
    assert forall x :: x in g.blocks ==> x in g2.blocks && g.blocks[x] == g2.blocks[x];
  }

  lemma MergedValid(fn: Fn, g1: Fn, bb: nat, dest: nat)
    requires Valid(fn) && bb in fn.blocks && dest in fn.blocks && bb != dest
    requires g1 == fn.(blocks := fn.blocks[bb := fn.blocks[bb][..|fn.blocks[bb]| - 1] + fn.blocks[dest]])
    ensures Valid(g1)
  {
    ConcatShaped(fn.blocks[bb], fn.blocks[dest]);
  }

  lemma MergedClosed(fn: Fn, g1: Fn, bb: nat, dest: nat)
    requires Valid(fn) && Closed(fn) && bb in fn.blocks && dest in fn.blocks && bb != dest
    requires g1 == fn.(blocks := fn.blocks[bb := fn.blocks[bb][..|fn.blocks[bb]| - 1] + fn.blocks[dest]])
    requires Valid(g1)
    ensures Closed(g1)
  {
    var m := g1.blocks[bb];
    assert m[|m| - 1] == fn.blocks[dest][|fn.blocks[dest]| - 1];
    assert Terminator(g1, bb) == Terminator(fn, dest);
    forall x | x in g1.blocks && x != bb ensures Terminator(g1, x) == Terminator(fn, x) {
      assert g1.blocks[x] == fn.blocks[x];
    }
    forall x, s | x in g1.blocks && s in Successors(Terminator(g1, x))
      ensures s in g1.blocks
    {
      if x == bb {
        assert s in Successors(Terminator(fn, dest));
      } else {
        assert s in Successors(Terminator(fn, x));
      }
    }
  }

  /** The non-terminators of one block followed by a whole block form a block. */
  lemma ConcatShaped(a: seq<Inst>, b: seq<Inst>)
    requires Shaped(a) && Shaped(b)
    ensures Shaped(a[..|a| - 1] + b)
  {
    var m := a[..|a| - 1] + b;
    var n := |a| - 1;
    forall i | 0 <= i < |m| - 1
      ensures !IsTerminator(m[i])
    {
      if i < n {
        assert m[i] == a[i];
      } else {
        assert m[i] == b[i - n];
      }
    }
    assert m[|m| - 1] == b[|b| - 1];
  }

  // ---------------------------------------------------------------------------
  // attemptBranchRemovalFromPhiNodes
  // ---------------------------------------------------------------------------

  /** A jump whose block operands are plain targets: Branch, CondBranch, Switch, GetPNames, GetNextPName. */
  predicate IsJump(i: Inst)
  {
    i.Branch? || i.CondBranch? || i.Switch? || i.ForIn?
  }

  /** A phi with an entry from `bb`. */
  predicate IsPhiUser(i: Inst, bb: nat)
  {
    i.Phi? && From(i.entries, bb) != []
  }

  /** isUsedInPhiNode: some phi of the function has an entry from `bb`. */
  predicate UsedInPhi(fn: Fn, bb: nat)
  {
    exists x, i :: x in fn.blocks && 0 <= i < |fn.blocks[x]| && IsPhiUser(fn.blocks[x][i], bb)
  }

  /** The block holds a phi with an entry from `bb`. */
  predicate HoldsPhiUser(blk: seq<Inst>, bb: nat)
  {
    exists i :: 0 <= i < |blk| && IsPhiUser(blk[i], bb)
  }

  /** Block `bb` holds nothing but a direct branch. */
  predicate LoneBranch(fn: Fn, bb: nat)
  {
    bb in fn.blocks && |fn.blocks[bb]| == 1 && fn.blocks[bb][0].Branch?
  }

  /** Some instruction that is neither a jump nor a phi names `bb`. */
  predicate HasOtherUse(fn: Fn, bb: nat)
  {
    exists x, i :: x in fn.blocks && 0 <= i < |fn.blocks[x]| && fn.blocks[x][i].Other? && bb in fn.blocks[x][i].blocks
  }

  /** The block holds a jump to `bb`. */
  predicate JumpsTo(blk: seq<Inst>, bb: nat)
  {
    exists i :: 0 <= i < |blk| && IsJump(blk[i]) && bb in Successors(blk[i])
  }

  /** The blocks among `xs` holding a jump to `bb`, in the order of `xs`. */
  function ParentsIn(fn: Fn, xs: seq<nat>, bb: nat): (r: seq<nat>)
    ensures forall x :: x in r <==> x in xs && x in fn.blocks && JumpsTo(fn.blocks[x], bb)
  {
    if xs == [] then []
    else (if xs[0] in fn.blocks && JumpsTo(fn.blocks[xs[0]], bb) then [xs[0]] else []) + ParentsIn(fn, xs[1..], bb)
  }

  /**
   * The parents of `bb`: every block jumping to it, once each, in function
   * order (the order in which the pass adds their phi entries back).
   */
  function Parents(fn: Fn, bb: nat): seq<nat>
  {
    ParentsIn(fn, fn.order, bb)
  }

  lemma {:induction false} ParentsInDistinct(fn: Fn, xs: seq<nat>, bb: nat)
    requires Distinct(xs)
    ensures Distinct(ParentsIn(fn, xs, bb))
  {
    if xs != [] {
      DistinctTail(xs);
      ParentsInDistinct(fn, xs[1..], bb);
      var rest := ParentsIn(fn, xs[1..], bb);
      if xs[0] in fn.blocks && JumpsTo(fn.blocks[xs[0]], bb) {
        DistinctCons(xs[0], rest);
      }
    }
  }

  lemma DistinctTail(s: seq<nat>)
    requires Distinct(s) && s != []
    ensures Distinct(s[1..]) && s[0] !in s[1..]
  {
    forall i, j | 0 <= i < j < |s[1..]| ensures s[1..][i] != s[1..][j] {
      assert s[1..][i] == s[i + 1] && s[1..][j] == s[j + 1];
    }
    forall k | 0 <= k < |s[1..]| ensures s[1..][k] != s[0] {
      assert s[1..][k] == s[k + 1];
    }
  }

  lemma DistinctCons(x: nat, rest: seq<nat>)
    requires Distinct(rest) && x !in rest
    ensures Distinct([x] + rest)
  {
    var r := [x] + rest;
    forall i, j | 0 <= i < j < |r| ensures r[i] != r[j] {
      if i == 0 {
        assert r[j] == rest[j - 1] && rest[j - 1] in rest;
      } else {
        assert r[i] == rest[i - 1] && r[j] == rest[j - 1];
      }
    }
  }

  /**
   * What the pass relies on (it stops with llvm_unreachable otherwise): the
   * phis with an entry from `bb` are all in one block, and each has exactly
   * one entry from `bb`.
   */
  ghost predicate PhiUsersOk(fn: Fn, bb: nat)
  {
    (forall x, y :: x in fn.blocks && y in fn.blocks && HoldsPhiUser(fn.blocks[x], bb) && HoldsPhiUser(fn.blocks[y], bb) ==> x == y) &&
    (forall x, i :: x in fn.blocks && 0 <= i < |fn.blocks[x]| && IsPhiUser(fn.blocks[x][i], bb) ==>
      |From(fn.blocks[x][i].entries, bb)| == 1)
  }

  /** A phi entry from a parent of `bb` carries a value other than the one coming through `bb`. */
  predicate PhiConflict(i: Inst, bb: nat, parents: seq<nat>)
  {
    IsPhiUser(i, bb) &&
    exists k :: 0 <= k < |i.entries| && i.entries[k].block in parents && i.entries[k].value != From(i.entries, bb)[0].value
  }

  predicate Conflict(fn: Fn, bb: nat, parents: seq<nat>)
  {
    exists x, i :: x in fn.blocks && 0 <= i < |fn.blocks[x]| && PhiConflict(fn.blocks[x][i], bb, parents)
  }

  /** The entries from neither `bb` nor a parent, in order. */
  function Outside(es: seq<PhiEntry>, bb: nat, parents: seq<nat>): (r: seq<PhiEntry>)
    ensures |r| <= |es|
  {
    if es == [] then []
    else (if es[0].block == bb || es[0].block in parents then [] else [es[0]]) + Outside(es[1..], bb, parents)
  }

  /** One entry `(v, p)` per parent `p`, in the parents' order. */
  function ParentEntries(v: Value, parents: seq<nat>): (r: seq<PhiEntry>)
    ensures |r| == |parents| && forall k :: 0 <= k < |parents| ==> r[k] == PhiEntry(v, parents[k])
  {
    if parents == [] then [] else [PhiEntry(v, parents[0])] + ParentEntries(v, parents[1..])
  }

  /** A phi user of `bb` after the rewrite: entries from `bb` and the parents replaced by one entry per parent. */
  function RewirePhi(i: Inst, bb: nat, parents: seq<nat>): Inst
  {
    if IsPhiUser(i, bb) then Phi(Outside(i.entries, bb, parents) + ParentEntries(From(i.entries, bb)[0].value, parents))
    else i
  }

  function RewireBlock(blk: seq<Inst>, bb: nat, parents: seq<nat>): (r: seq<Inst>)
    ensures |r| == |blk| && forall k :: 0 <= k < |blk| ==> r[k] == RewirePhi(blk[k], bb, parents)
  {
    if blk == [] then [] else [RewirePhi(blk[0], bb, parents)] + RewireBlock(blk[1..], bb, parents)
  }

  lemma {:induction false} FromConcat(a: seq<PhiEntry>, c: seq<PhiEntry>, b: nat)
    ensures From(a + c, b) == From(a, b) + From(c, b)
  {
    if a == [] {
      assert a + c == c;
    } else {
      var ac := a + c;
      assert ac[0] == a[0] && ac[1..] == a[1..] + c;
      FromConcat(a[1..], c, b);
      if a[0].block == b {
        assert [a[0]] + (From(a[1..], b) + From(c, b)) == ([a[0]] + From(a[1..], b)) + From(c, b);
      }
    }
  }

  lemma {:induction false} FromOutside(es: seq<PhiEntry>, bb: nat, parents: seq<nat>, b: nat)
    ensures From(Outside(es, bb, parents), b) == if b == bb || b in parents then [] else From(es, b)
  {
    if es != [] {
      FromOutside(es[1..], bb, parents, b);
      var head := if es[0].block == bb || es[0].block in parents then [] else [es[0]];
      FromConcat(head, Outside(es[1..], bb, parents), b);
    }
  }

  lemma {:induction false} FromParentEntries(v: Value, parents: seq<nat>, b: nat)
    requires Distinct(parents)
    ensures From(ParentEntries(v, parents), b) == if b in parents then [PhiEntry(v, b)] else []
  {
    if parents != [] {
      assert Distinct(parents[1..]) by {
        forall i, j | 0 <= i < j < |parents[1..]| ensures parents[1..][i] != parents[1..][j] {
          assert parents[1..][i] == parents[i + 1] && parents[1..][j] == parents[j + 1];
        }
      }
      FromParentEntries(v, parents[1..], b);
      assert parents[0] !in parents[1..] by {
        forall k | 0 <= k < |parents[1..]| ensures parents[1..][k] != parents[0] {
          assert parents[1..][k] == parents[k + 1];
        }
      }
      assert ParentEntries(v, parents)[1..] == ParentEntries(v, parents[1..]);
      assert forall x :: x in parents <==> x == parents[0] || x in parents[1..];
    }
  }

  /**
   * The rewritten phi has no entry from `bb`, exactly one entry from each
   * parent, carrying the value that used to come through `bb`, and the same
   * entries as before from every other block.
   */
  lemma RewirePhiMeaning(i: Inst, bb: nat, parents: seq<nat>)
    requires IsPhiUser(i, bb) && Distinct(parents) && bb !in parents
    ensures RewirePhi(i, bb, parents).Phi?
    ensures From(RewirePhi(i, bb, parents).entries, bb) == []
    ensures forall p :: p in parents ==>
      From(RewirePhi(i, bb, parents).entries, p) == [PhiEntry(From(i.entries, bb)[0].value, p)]
    ensures forall b :: b != bb && b !in parents ==> From(RewirePhi(i, bb, parents).entries, b) == From(i.entries, b)
  {
    var v := From(i.entries, bb)[0].value;
    var o := Outside(i.entries, bb, parents);
    var pe := ParentEntries(v, parents);
    forall b
      ensures From(o + pe, b) == (if b == bb || b in parents then [] else From(i.entries, b)) +
                                 (if b in parents then [PhiEntry(v, b)] else [])
    {
      FromConcat(o, pe, b);
      FromOutside(i.entries, bb, parents, b);
      FromParentEntries(v, parents, b);
    }
  }

  /** The entries of `es` from `b` are the entries at the indices naming `b`. */
  lemma {:induction false} FromMembers(es: seq<PhiEntry>, b: nat, e: PhiEntry)
    requires e in From(es, b)
    ensures e in es && e.block == b
  {
    if es[0].block == b && e == es[0] {
    } else {
      FromMembers(es[1..], b, e);
    }
  }

  /**
   * When the pass goes ahead (no conflict), every entry the old phi had from a
   * parent carried the value that came through `bb`: a path entering the
   * phi's block from a parent, directly or through `bb`, sees the same value
   * before and after the rewrite.
   */
  lemma NoConflictKeepsValues(i: Inst, bb: nat, parents: seq<nat>)
    requires IsPhiUser(i, bb) && !PhiConflict(i, bb, parents) && Distinct(parents) && bb !in parents
    ensures forall p, e :: p in parents && e in From(i.entries, p) ==>
      From(RewirePhi(i, bb, parents).entries, p) == [PhiEntry(e.value, p)]
  {
    RewirePhiMeaning(i, bb, parents);
    forall p, e | p in parents && e in From(i.entries, p)
      ensures e.value == From(i.entries, bb)[0].value
    {
      FromMembers(i.entries, p, e);
      var k :| 0 <= k < |i.entries| && i.entries[k] == e;
    }
  }

  lemma {:induction false} ParentsInSnoc(fn: Fn, xs: seq<nat>, x: nat, bb: nat)
    ensures ParentsIn(fn, xs + [x], bb) ==
      ParentsIn(fn, xs, bb) + (if x in fn.blocks && JumpsTo(fn.blocks[x], bb) then [x] else [])
  {
    if xs == [] {
      assert xs + [x] == [x];
    } else {
      assert (xs + [x])[0] == xs[0] && (xs + [x])[1..] == xs[1..] + [x];
      ParentsInSnoc(fn, xs[1..], x, bb);
    }
  }

  /** The scan over the users of `bb` that collects its parents. */
  method CollectParents(fn: Fn, bb: nat) returns (parents: seq<nat>)
    ensures parents == Parents(fn, bb)
  {
    parents := [];
    var i := 0;
    while i < |fn.order|
      invariant 0 <= i <= |fn.order| && parents == ParentsIn(fn, fn.order[..i], bb)
    {
      assert fn.order[..i + 1] == fn.order[..i] + [fn.order[i]];
      ParentsInSnoc(fn, fn.order[..i], fn.order[i], bb);
      var x := fn.order[i];
      if x in fn.blocks && JumpsTo(fn.blocks[x], bb) {
        parents := parents + [x];
      }
      i := i + 1;
    }
    assert fn.order[..i] == fn.order;
  }

  /** The scan for `ourValue`: the value of the last entry from `bb`. */
  method IncomingValue(es: seq<PhiEntry>, bb: nat) returns (v: Value)
    requires From(es, bb) != []
    ensures v == From(es, bb)[|From(es, bb)| - 1].value
  {
    var found: Option<Value> := None;
    var i := 0;
    while i < |es|
      invariant 0 <= i <= |es|
      invariant found.Some? <==> From(es[..i], bb) != []
      invariant found.Some? ==> found.value == From(es[..i], bb)[|From(es[..i], bb)| - 1].value
    {
      assert es[..i + 1] == es[..i] + [es[i]];
      FromConcat(es[..i], [es[i]], bb);
      assert From([es[i]], bb) == if es[i].block == bb then [es[i]] else [] by {
        assert [es[i]][1..] == [];
      }
      if es[i].block == bb {
        found := Some(es[i].value);
      }
      i := i + 1;
    }
    assert es[..i] == es;
    v := found.value;
  }

  /** The backwards loop dropping every entry from `bb` or from a parent. */
  method StripEntries(es: seq<PhiEntry>, bb: nat, parents: seq<nat>) returns (cur: seq<PhiEntry>)
    ensures cur == Outside(es, bb, parents)
  {
    cur := es;
    var i := |es|;
    assert es[i..] == [];
    while i > 0
      invariant 0 <= i <= |es| && cur == es[..i] + Outside(es[i..], bb, parents)
    {
      i := i - 1;
      assert es[i..][0] == es[i] && es[i..][1..] == es[i + 1..];
      assert es[..i + 1] == es[..i] + [es[i]];
      assert cur[..i] == es[..i] && cur[i] == es[i];
      if cur[i].block == bb || cur[i].block in parents {
        assert cur[i + 1..] == Outside(es[i + 1..], bb, parents);
        cur := cur[..i] + cur[i + 1..];
      }
    }
    assert es[..0] + Outside(es[0..], bb, parents) == Outside(es, bb, parents) by {
      assert es[0..] == es;
    }
  }

  /** The loop adding one entry `(v, p)` per parent, in order. */
  method AddParentEntries(es: seq<PhiEntry>, v: Value, parents: seq<nat>) returns (cur: seq<PhiEntry>)
    ensures cur == es + ParentEntries(v, parents)
  {
    cur := es;
    var k := 0;
    while k < |parents|
      invariant 0 <= k <= |parents| && cur == es + ParentEntries(v, parents[..k])
    {
      ParentEntriesSnoc(v, parents, k);
      cur := cur + [PhiEntry(v, parents[k])];
      k := k + 1;
    }
    assert parents[..k] == parents;
  }

  lemma ParentEntriesSnoc(v: Value, parents: seq<nat>, k: nat)
    requires k < |parents|
    ensures ParentEntries(v, parents[..k + 1]) == ParentEntries(v, parents[..k]) + [PhiEntry(v, parents[k])]
  {
  }

  /** The rewrite loop over the phis of the phi block. */
  method RewirePhis(blk: seq<Inst>, bb: nat, parents: seq<nat>) returns (blk': seq<Inst>)
    requires forall k :: 0 <= k < |blk| && IsPhiUser(blk[k], bb) ==> |From(blk[k].entries, bb)| == 1
    ensures blk' == RewireBlock(blk, bb, parents)
  {
    blk' := blk;
    var k := 0;
    while k < |blk|
      invariant 0 <= k <= |blk| && |blk'| == |blk|
      invariant forall j :: 0 <= j < k ==> blk'[j] == RewirePhi(blk[j], bb, parents)
      invariant forall j :: k <= j < |blk| ==> blk'[j] == blk[j]
    {
      if IsPhiUser(blk[k], bb) {
        var es := blk[k].entries;
        var ourValue := IncomingValue(es, bb);
        var stripped := StripEntries(es, bb, parents);
        var es' := AddParentEntries(stripped, ourValue, parents);
        blk' := blk'[k := Phi(es')];
      }
      k := k + 1;
    }
  }

  lemma RewireBlockIdle(blk: seq<Inst>, bb: nat, parents: seq<nat>)
    requires !HoldsPhiUser(blk, bb)
    ensures RewireBlock(blk, bb, parents) == blk
  {
    var r := RewireBlock(blk, bb, parents);
    forall k | 0 <= k < |blk| ensures r[k] == blk[k] {
      assert !IsPhiUser(blk[k], bb);
    }
  }

  /** Rewriting the phis of one block keeps every terminator, so the function stays well formed and closed. */
  lemma RewiredValid(fn: Fn, fn1: Fn, bb: nat, pb: nat, parents: seq<nat>)
    requires Valid(fn) && pb in fn.blocks
    requires fn1 == fn.(blocks := fn.blocks[pb := RewireBlock(fn.blocks[pb], bb, parents)])
    ensures fn1.blocks.Keys == fn.blocks.Keys && Valid(fn1)
    ensures forall x :: x in fn.blocks ==> Terminator(fn1, x) == Terminator(fn, x)
    ensures Closed(fn) ==> Closed(fn1)
  {
    RewireBlockShaped(fn.blocks[pb], bb, parents);
    ReplaceBlockTerminators(fn, pb, RewireBlock(fn.blocks[pb], bb, parents));
    SameTerminatorsClosed(fn, fn1);
  }

  /** Replacing one block by a well-shaped one keeps the function well formed. */
  lemma ReplaceBlockValid(fn: Fn, pb: nat, blk: seq<Inst>)
    requires Valid(fn) && pb in fn.blocks && Shaped(blk)
    ensures Valid(fn.(blocks := fn.blocks[pb := blk]))
  {
    var fn1 := fn.(blocks := fn.blocks[pb := blk]);
    forall x | x in fn1.blocks ensures Shaped(fn1.blocks[x]) {
      if x != pb {
        assert fn1.blocks[x] == fn.blocks[x];
      }
    }
  }

  /** ... and, when the new block ends in the old terminator, keeps every terminator. */
  lemma ReplaceBlockTerminators(fn: Fn, pb: nat, blk: seq<Inst>)
    requires Valid(fn) && pb in fn.blocks && Shaped(blk) && blk[|blk| - 1] == fn.blocks[pb][|fn.blocks[pb]| - 1]
    ensures var fn1 := fn.(blocks := fn.blocks[pb := blk]);
      fn1.blocks.Keys == fn.blocks.Keys && Valid(fn1) &&
      forall x :: x in fn.blocks ==> Terminator(fn1, x) == Terminator(fn, x)
  {
    var fn1 := fn.(blocks := fn.blocks[pb := blk]);
    ReplaceBlockValid(fn, pb, blk);
    assert fn1.blocks.Keys == fn.blocks.Keys;
    forall x | x in fn.blocks ensures Terminator(fn1, x) == Terminator(fn, x) {
      if x != pb {
        assert fn1.blocks[x] == fn.blocks[x];
      }
    }
  }

  /** Closedness depends only on the blocks and their terminators. */
  lemma SameTerminatorsClosed(fn: Fn, fn1: Fn)
    requires Valid(fn) && Valid(fn1) && fn1.blocks.Keys == fn.blocks.Keys
    requires forall x :: x in fn.blocks ==> Terminator(fn1, x) == Terminator(fn, x)
    ensures Closed(fn) ==> Closed(fn1)
  {
    if Closed(fn) {
      forall x, s | x in fn1.blocks && s in Successors(Terminator(fn1, x)) ensures s in fn1.blocks {
        assert s in Successors(Terminator(fn, x));
      }
    }
  }

  /** Rewiring phis keeps the block's shape and its terminator. */
  lemma RewireBlockShaped(blk: seq<Inst>, bb: nat, parents: seq<nat>)
    requires Shaped(blk)
    ensures Shaped(RewireBlock(blk, bb, parents))
    ensures RewireBlock(blk, bb, parents)[|blk| - 1] == blk[|blk| - 1]
  {
    var r := RewireBlock(blk, bb, parents);
    forall k | 0 <= k < |blk| ensures IsTerminator(r[k]) == IsTerminator(blk[k]) {
    }
  }

  /**
   * What the removal leaves: `bb` is gone from the list and the map, and
   * every remaining block is its old self with the phis of the phi block
   * rewired and every use of `bb` renamed to the phi block.
   */
  ghost predicate BranchRemoved(fn: Fn, g: Fn, bb: nat, pb: nat)
  {
    g.order == Without(fn.order, bb) && g.blocks.Keys == fn.blocks.Keys - {bb} &&
    forall x :: x in g.blocks ==> g.blocks[x] == ReplaceUsesInBlock(RewireBlock(fn.blocks[x], bb, Parents(fn, bb)), bb, pb)
  }

  /**
   * attemptBranchRemovalFromPhiNodes: a block that is a lone direct branch,
   * used only by jumps and phis, with at least one parent and no parent whose
   * phi entry disagrees with the value coming through it, is removed: its
   * phi entry is replaced by one entry per parent, its parents jump to the
   * phi block directly, and it is erased. Otherwise nothing changes.
   */
  method AttemptBranchRemovalFromPhiNodes(fn: Fn, bb: nat) returns (g: Fn, removed: bool)
    requires Valid(fn) && Closed(fn) && bb in fn.blocks
    requires LoneBranch(fn, bb) && !HasOtherUse(fn, bb) && Parents(fn, bb) != [] ==>
      UsedInPhi(fn, bb) && PhiUsersOk(fn, bb)
    ensures removed <==> LoneBranch(fn, bb) && !HasOtherUse(fn, bb) && Parents(fn, bb) != [] &&
                         !Conflict(fn, bb, Parents(fn, bb))
    ensures !removed ==> g == fn
    ensures removed ==> Valid(g) && Closed(g) && Unused(g, bb)
    ensures removed ==> forall pb :: pb in fn.blocks && HoldsPhiUser(fn.blocks[pb], bb) ==> BranchRemoved(fn, g, bb, pb)
  {
    if !LoneBranch(fn, bb) || HasOtherUse(fn, bb) {
      return fn, false;
    }
    var parents := CollectParents(fn, bb);
    if parents == [] {
      return fn, false;
    }
    var pb, pk :| pb in fn.blocks && 0 <= pk < |fn.blocks[pb]| && IsPhiUser(fn.blocks[pb][pk], bb);
    if Conflict(fn, bb, parents) {
      return fn, false;
    }
    var rewired := RewirePhis(fn.blocks[pb], bb, parents);
    var fn1 := fn.(blocks := fn.blocks[pb := rewired]);
    g := EraseBlock(ReplaceAllUsesOfBlock(fn1, bb, pb), bb);
    removed := true;
    RemovalFacts(fn, bb, pb, g);
  }

  lemma RemovalFacts(fn: Fn, bb: nat, pb: nat, g: Fn)
    requires Valid(fn) && Closed(fn) && LoneBranch(fn, bb) && PhiUsersOk(fn, bb)
    requires pb in fn.blocks && HoldsPhiUser(fn.blocks[pb], bb)
    requires g == EraseBlock(ReplaceAllUsesOfBlock(
      fn.(blocks := fn.blocks[pb := RewireBlock(fn.blocks[pb], bb, Parents(fn, bb))]), bb, pb), bb)
    ensures Valid(g) && Closed(g) && Unused(g, bb)
    ensures forall pb' :: pb' in fn.blocks && HoldsPhiUser(fn.blocks[pb'], bb) ==> BranchRemoved(fn, g, bb, pb')
  {
    var parents := Parents(fn, bb);
    var fn1 := fn.(blocks := fn.blocks[pb := RewireBlock(fn.blocks[pb], bb, parents)]);
    RewiredValid(fn, fn1, bb, pb, parents);
    LoneBranchHoldsNoPhi(fn.blocks[bb], bb);
    RemovalValid(fn1, bb, pb);
    RewireOnlyPhiBlock(fn, bb, pb, parents);
    RemovalShape(fn, fn1, bb, pb);
  }

  lemma RemovalValid(fn1: Fn, bb: nat, pb: nat)
    requires Valid(fn1) && Closed(fn1) && pb in fn1.blocks && pb != bb
    ensures var g := EraseBlock(ReplaceAllUsesOfBlock(fn1, bb, pb), bb); Valid(g) && Closed(g) && Unused(g, bb)
  {
    var g2 := ReplaceAllUsesOfBlock(fn1, bb, pb);
    ReplaceAllUsesMeaning(fn1, bb, pb);
    EraseUnusedBlock(g2, bb);
  }

  lemma RemovalShape(fn: Fn, fn1: Fn, bb: nat, pb: nat)
    requires pb in fn.blocks && fn1.order == fn.order && fn1.blocks.Keys == fn.blocks.Keys
    requires forall x :: x in fn.blocks && x != pb ==> RewireBlock(fn.blocks[x], bb, Parents(fn, bb)) == fn.blocks[x]
    requires fn1 == fn.(blocks := fn.blocks[pb := RewireBlock(fn.blocks[pb], bb, Parents(fn, bb))])
    ensures BranchRemoved(fn, EraseBlock(ReplaceAllUsesOfBlock(fn1, bb, pb), bb), bb, pb)
  {
    var g := EraseBlock(ReplaceAllUsesOfBlock(fn1, bb, pb), bb);
    forall x | x in g.blocks
      ensures g.blocks[x] == ReplaceUsesInBlock(RewireBlock(fn.blocks[x], bb, Parents(fn, bb)), bb, pb)
    {
      assert g.blocks[x] == ReplaceUsesInBlock(fn1.blocks[x], bb, pb);
    }
  }

  lemma LoneBranchHoldsNoPhi(blk: seq<Inst>, bb: nat)
    requires |blk| == 1 && blk[0].Branch?
    ensures !HoldsPhiUser(blk, bb)
  {
  }

  /** Under PhiUsersOk the phi block is the only block the rewrite touches. */
  lemma RewireOnlyPhiBlock(fn: Fn, bb: nat, pb: nat, parents: seq<nat>)
    requires PhiUsersOk(fn, bb) && pb in fn.blocks && HoldsPhiUser(fn.blocks[pb], bb)
    ensures forall x :: x in fn.blocks && x != pb ==> RewireBlock(fn.blocks[x], bb, parents) == fn.blocks[x]
  {
    forall x | x in fn.blocks && x != pb ensures RewireBlock(fn.blocks[x], bb, parents) == fn.blocks[x] {
      RewireBlockIdle(fn.blocks[x], bb, parents);
    }
  }

  lemma {:induction false} FromEmptyNotIn(es: seq<PhiEntry>, b: nat)
    requires From(es, b) == []
    ensures b !in EntryBlocks(es)
  {
    if es != [] {
      FromEmptyNotIn(es[1..], b);
      assert EntryBlocks(es) == [es[0].block] + EntryBlocks(es[1..]);
    }
  }

  /**
   * In the function the removal leaves, each phi that had an entry from `bb`
   * has none, has exactly one entry from each parent carrying the value that
   * came through `bb`, and keeps its entries from every other block.
   */
  lemma RemovedPhiMeaning(fn: Fn, g: Fn, bb: nat, pb: nat, k: nat)
    requires Valid(fn) && BranchRemoved(fn, g, bb, pb) && pb in fn.blocks && pb != bb && bb !in Parents(fn, bb)
    requires 0 <= k < |fn.blocks[pb]| && IsPhiUser(fn.blocks[pb][k], bb)
    ensures g.blocks[pb][k].Phi? && From(g.blocks[pb][k].entries, bb) == []
    ensures forall p :: p in Parents(fn, bb) ==>
      From(g.blocks[pb][k].entries, p) == [PhiEntry(From(fn.blocks[pb][k].entries, bb)[0].value, p)]
    ensures forall b :: b != bb && b !in Parents(fn, bb) ==>
      From(g.blocks[pb][k].entries, b) == From(fn.blocks[pb][k].entries, b)
  {
    var parents := Parents(fn, bb);
    ParentsInDistinct(fn, fn.order, bb);
    var i := fn.blocks[pb][k];
    RewirePhiMeaning(i, bb, parents);
    var r := RewirePhi(i, bb, parents);
    assert g.blocks[pb] == ReplaceUsesInBlock(RewireBlock(fn.blocks[pb], bb, parents), bb, pb);
    assert g.blocks[pb][k] == ReplaceUses(r, bb, pb);
    FromEmptyNotIn(r.entries, bb);
    ReplaceUsesUnused(r, bb, pb);
  }

  // ---------------------------------------------------------------------------
  // The trampoline loop
  // ---------------------------------------------------------------------------

  /**
   * The phi nodes are as the pass expects: for every block that is a lone
   * direct branch used by phis, those phis sit in one block and have one
   * entry each from it.
   */
  ghost predicate PhisWellFormed(fn: Fn)
  {
    forall b :: LoneBranch(fn, b) && UsedInPhi(fn, b) ==> PhiUsersOk(fn, b)
  }

  /** What the second loop of optimizeStaticBranches does with block `bb`. */
  datatype Action = Skip | PhiRewired | Redirected | Merged

  /**
   * The decision for one block: only a direct branch elsewhere qualifies; a
   * block used by phis is removed when attemptBranchRemovalFromPhiNodes
   * allows it; a lone branch with predecessors is bypassed; otherwise the
   * destination is merged in when `bb` is its only predecessor.
   */
  function TrampolineAction(fn: Fn, bb: nat): Action
    requires Valid(fn) && bb in fn.blocks
  {
    var t := Terminator(fn, bb);
    if !t.Branch? || t.dest == bb then Skip
    else if UsedInPhi(fn, bb) then
      (if LoneBranch(fn, bb) && !HasOtherUse(fn, bb) && Parents(fn, bb) != [] && !Conflict(fn, bb, Parents(fn, bb))
       then PhiRewired else Skip)
    else if |fn.blocks[bb]| == 1 && PredCount(fn, bb) > 0 then Redirected
    else if PredCount(fn, t.dest) == 1 then Merged
    else Skip
  }

  /** Renaming a block no phi uses leaves every phi as it is and every instruction of the same kind. */
  lemma RedirectKeepsPhis(fn: Fn, from: nat, to: nat)
    requires Valid(fn) && !UsedInPhi(fn, from)
    ensures forall x, i :: x in fn.blocks && 0 <= i < |fn.blocks[x]| ==>
      (fn.blocks[x][i].Phi? ==> ReplaceAllUsesOfBlock(fn, from, to).blocks[x][i] == fn.blocks[x][i]) &&
      ReplaceAllUsesOfBlock(fn, from, to).blocks[x][i].Phi? == fn.blocks[x][i].Phi? &&
      ReplaceAllUsesOfBlock(fn, from, to).blocks[x][i].Branch? == fn.blocks[x][i].Branch?
  {
    var g := ReplaceAllUsesOfBlock(fn, from, to);
    forall x, i | x in fn.blocks && 0 <= i < |fn.blocks[x]|
      ensures fn.blocks[x][i].Phi? ==> g.blocks[x][i] == fn.blocks[x][i]
      ensures g.blocks[x][i].Phi? == fn.blocks[x][i].Phi? && g.blocks[x][i].Branch? == fn.blocks[x][i].Branch?
    {
      var ins := fn.blocks[x][i];
      assert g.blocks[x][i] == ReplaceUses(ins, from, to);
      ReplaceUsesMeaning(ins, from, to);
      if ins.Phi? {
        assert !IsPhiUser(ins, from);
        FromEmptyNotIn(ins.entries, from);
        ReplaceUsesUnused(ins, from, to);
      }
    }
  }

  /** Bypassing a block no phi uses keeps the phi nodes as the pass expects them. */
  lemma RedirectKeepsPhisWellFormed(fn: Fn, from: nat, to: nat)
    requires Valid(fn) && !UsedInPhi(fn, from) && PhisWellFormed(fn)
    ensures PhisWellFormed(ReplaceAllUsesOfBlock(fn, from, to))
  {
    var g := ReplaceAllUsesOfBlock(fn, from, to);
    RedirectKeepsPhis(fn, from, to);
    assert forall x, i, b :: x in g.blocks && 0 <= i < |g.blocks[x]| ==>
      IsPhiUser(g.blocks[x][i], b) == IsPhiUser(fn.blocks[x][i], b);
    forall b | LoneBranch(g, b) && UsedInPhi(g, b) ensures PhiUsersOk(g, b) {
      assert LoneBranch(fn, b);
      assert forall x :: x in g.blocks ==> HoldsPhiUser(g.blocks[x], b) == HoldsPhiUser(fn.blocks[x], b);
    }
  }

  /** What MergeBlocks leaves: `dest` is gone, its instructions replace the branch of `bb`, and its uses are renamed to `bb`. */
  ghost predicate BlocksMerged(fn: Fn, g: Fn, bb: nat, dest: nat)
  {
    bb in fn.blocks && dest in fn.blocks && |fn.blocks[bb]| > 0 && bb != dest &&
    g.order == Without(fn.order, dest) && g.blocks.Keys == fn.blocks.Keys - {dest} &&
    g.blocks[bb] == ReplaceUsesInBlock(fn.blocks[bb][..|fn.blocks[bb]| - 1] + fn.blocks[dest], dest, bb) &&
    forall x :: x in g.blocks && x != bb ==> g.blocks[x] == ReplaceUsesInBlock(fn.blocks[x], dest, bb)
  }

  /** One iteration of the second loop of optimizeStaticBranches, on block `bb`. */
  method TrampolineStep(fn: Fn, bb: nat) returns (g: Fn, action: Action)
    requires Valid(fn) && Closed(fn) && PhisWellFormed(fn) && bb in fn.blocks
    ensures action == TrampolineAction(fn, bb)
    ensures Valid(g) && Closed(g) && g.blocks.Keys <= fn.blocks.Keys
    ensures action == Skip || action == Redirected ==> g.order == fn.order && g.blocks.Keys == fn.blocks.Keys
    ensures action == Skip ==> g == fn
    ensures action == PhiRewired ==> Unused(g, bb)
    ensures action == PhiRewired ==>
      forall pb :: pb in fn.blocks && HoldsPhiUser(fn.blocks[pb], bb) ==> BranchRemoved(fn, g, bb, pb)
    ensures action == Redirected ==>
      g == ReplaceAllUsesOfBlock(fn, bb, Terminator(fn, bb).dest) && PredCount(g, bb) == 0 && PhisWellFormed(g)
    ensures action == Merged ==>
      BlocksMerged(fn, g, bb, Terminator(fn, bb).dest) && Unused(g, Terminator(fn, bb).dest)
  {
    var t := fn.blocks[bb][|fn.blocks[bb]| - 1];
    if !t.Branch? || t.dest == bb {
      return fn, Skip;
    }
    var dest := t.dest;
    if UsedInPhi(fn, bb) {
      var removed;
      g, removed := AttemptBranchRemovalFromPhiNodes(fn, bb);
      action := if removed then PhiRewired else Skip;
      return;
    }
    if |fn.blocks[bb]| == 1 && PredCount(fn, bb) > 0 {
      g := ReplaceAllUsesOfBlock(fn, bb, dest);
      ReplaceAllUsesMeaning(fn, bb, dest);
      RedirectLeavesNoPredecessors(fn, bb, dest);
      RedirectKeepsPhisWellFormed(fn, bb, dest);
      return g, Redirected;
    }
    if PredCount(fn, dest) == 1 {
      g := MergeBlocks(fn, bb, dest);
      return g, Merged;
    }
    return fn, Skip;
  }

  lemma NoActionAnywhere(fn: Fn)
    requires Valid(fn) && forall k :: 0 <= k < |fn.order| ==> TrampolineAction(fn, fn.order[k]) == Skip
    ensures forall b :: b in fn.blocks ==> TrampolineAction(fn, b) == Skip
  {
    forall b | b in fn.blocks ensures TrampolineAction(fn, b) == Skip {
      var k :| 0 <= k < |fn.order| && fn.order[k] == b;
    }
  }

  /**
   * The second loop of optimizeStaticBranches: visit the blocks in order,
   * bypassing trampolines as they are found, and stop after the first phi
   * removal or merge (the block list has changed). The function stays well
   * formed and closed, no block is added, and the loop reports a change
   * exactly when some block of the input qualified for one.
   */
  method RemoveTrampolines(fn: Fn) returns (g: Fn, changed: bool)
    requires Valid(fn) && Closed(fn) && PhisWellFormed(fn)
    ensures Valid(g) && Closed(g) && g.blocks.Keys <= fn.blocks.Keys
    ensures !changed ==> g == fn
    ensures changed <==> exists b :: b in fn.blocks && TrampolineAction(fn, b) != Skip
  {
    g := fn;
    changed := false;
    ghost var first := 0;
    var i := 0;
    while i < |fn.order|
      invariant 0 <= i <= |fn.order|
      invariant Valid(g) && Closed(g) && PhisWellFormed(g)
      invariant g.order == fn.order && g.blocks.Keys == fn.blocks.Keys
      invariant !changed ==> g == fn
      invariant !changed ==> forall k :: 0 <= k < i ==> TrampolineAction(fn, fn.order[k]) == Skip
      invariant changed ==> first < i && fn.order[first] in fn.blocks && TrampolineAction(fn, fn.order[first]) != Skip
    {
      var bb := fn.order[i];
      var g', action := TrampolineStep(g, bb);
      if action != Skip {
        if !changed {
          first := i;
        }
        changed := true;
        g := g';
        if action != Redirected {
          return;
        }
      }
      i := i + 1;
    }
    if !changed {
      NoActionAnywhere(fn);
    }
  }

  /**
   * The phi nodes are as the pass expects before it starts: every
   * single-instruction block used by phis meets PhiUsersOk. Folding keeps
   * block lengths and only drops phi entries, so the trampoline loop finds
   * its own precondition after the first loop.
   */
  ghost predicate PhisExpected(fn: Fn)
  {
    forall b :: b in fn.blocks && |fn.blocks[b]| == 1 && UsedInPhi(fn, b) ==> PhiUsersOk(fn, b)
  }

  lemma EditFromShorter(s: seq<PhiEntry>, e: PhiEdit)
    ensures |EditFrom(s, e)| <= |s|
  {
  }

  /** After folding, a phi with an entry from `b` was a phi with at least as many entries from `b`. */
  lemma FoldedPhiUser(fn: Fn, g: Fn, x: nat, i: nat, b: nat)
    requires Valid(fn) && Folded(fn, g, fn.blocks.Keys) && x in fn.blocks && 0 <= i < |g.blocks[x]|
    requires IsPhiUser(g.blocks[x][i], b)
    ensures IsPhiUser(fn.blocks[x][i], b) && |From(g.blocks[x][i].entries, b)| <= |From(fn.blocks[x][i].entries, b)|
  {
    assert BlockFolded(fn, fn.blocks[x], g.blocks[x], x, fn.blocks.Keys);
    BlockFoldedPhiUser(fn, fn.blocks[x], g.blocks[x], x, fn.blocks.Keys, i, b);
  }

  lemma BlockFoldedPhiUser(fn: Fn, blk: seq<Inst>, blk': seq<Inst>, x: nat, done: set<nat>, i: nat, b: nat)
    requires BlockFolded(fn, blk, blk', x, done) && IsTerminator(blk[|blk| - 1])
    requires 0 <= i < |blk'| && IsPhiUser(blk'[i], b)
    ensures IsPhiUser(blk[i], b) && |From(blk'[i].entries, b)| <= |From(blk[i].entries, b)|
  {
    var last := |blk| - 1;
    assert IsTerminator(blk'[last]);
    assert blk[i].Phi?;
    EditFromShorter(From(blk[i].entries, b), FoldEdit(fn, b, x));
  }

  lemma FoldedKeepsPhisWellFormed(fn: Fn, g: Fn)
    requires Valid(fn) && Folded(fn, g, fn.blocks.Keys) && PhisExpected(fn)
    ensures PhisWellFormed(g)
  {
    forall b | LoneBranch(g, b) && UsedInPhi(g, b) ensures PhiUsersOk(g, b) {
      var x, i :| x in g.blocks && 0 <= i < |g.blocks[x]| && IsPhiUser(g.blocks[x][i], b);
      FoldedPhiUser(fn, g, x, i, b);
      assert |fn.blocks[b]| == 1 && UsedInPhi(fn, b);
      FoldedPhiUsersOk(fn, g, b);
    }
  }

  /** Folding only drops phi entries, so PhiUsersOk for a block survives it. */
  lemma FoldedPhiUsersOk(fn: Fn, g: Fn, b: nat)
    requires Valid(fn) && Folded(fn, g, fn.blocks.Keys) && PhiUsersOk(fn, b)
    ensures PhiUsersOk(g, b)
  {
    forall x | x in g.blocks && HoldsPhiUser(g.blocks[x], b) ensures HoldsPhiUser(fn.blocks[x], b) {
      var i :| 0 <= i < |g.blocks[x]| && IsPhiUser(g.blocks[x][i], b);
      FoldedPhiUser(fn, g, x, i, b);
    }
    forall x, i | x in g.blocks && 0 <= i < |g.blocks[x]| && IsPhiUser(g.blocks[x][i], b)
      ensures |From(g.blocks[x][i].entries, b)| == 1
    {
      FoldedPhiUser(fn, g, x, i, b);
    }
  }

  /**
   * optimizeStaticBranches: fold the branches with a known outcome, then
   * remove trampolines. The function stays well formed and closed and gains
   * no block; a known outcome always counts as a change, and when there is
   * none the result reports a change exactly when some block qualified for
   * the trampoline loop.
   */
  method OptimizeStaticBranches(fn: Fn) returns (g: Fn, changed: bool)
    requires Valid(fn) && Closed(fn) && PhisExpected(fn)
    ensures Valid(g) && Closed(g) && g.blocks.Keys <= fn.blocks.Keys
    ensures !changed ==> g == fn
    ensures (exists b :: b in fn.blocks && FoldTarget(Terminator(fn, b)).Some?) ==> changed
    ensures (forall b :: b in fn.blocks ==> FoldTarget(Terminator(fn, b)).None?) ==>
      (changed <==> exists b :: b in fn.blocks && TrampolineAction(fn, b) != Skip)
  {
    var g1, c1 := FoldStaticBranches(fn);
    FoldedKeepsPhisWellFormed(fn, g1);
    var c2;
    g, c2 := RemoveTrampolines(g1);
    changed := c1 || c2;
  }
}

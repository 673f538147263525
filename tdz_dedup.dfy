/**
 * TDZ check deduplication (lib/Optimizer/Scalar/TDZDedup.cpp).
 *
 * A ThrowIf instruction throws when the value it checks is the "empty"
 * sentinel of a variable still in its temporal dead zone. The pass walks the
 * dominator tree keeping a scoped table of storage (frame variables and stack
 * slots) known to be non-empty, and deletes every ThrowIf whose storage is
 * already known to be non-empty on the dominator path.
 *
 * The model keeps the source's two classes: the scoped availability table
 * (`ScopedTable`) and the pass context (`TdzDedupContext`), whose
 * methods are proved against the pure functions `Process`, `BlockRun` and
 * `Walk`. Those are in turn proved equal to a reference definition that only
 * looks at the instructions on the dominator path (`Known`, `RefWalk`).
 */
module TdzDedup {
  import opened Wrappers

  /** The value a ThrowIf checks: a frame load, a stack load, or any other value. */
  datatype Checked =
    | FrameLoad(load: nat, variable: nat, oneUser: bool)
    | StackLoad(load: nat, alloc: nat, oneUser: bool)
    | OtherValue(value: nat)

  /**
   * The instructions the pass looks at; every other instruction is `Other`.
   * `canBeEmpty` is whether the stored value's type admits the empty sentinel,
   * `hasUsers` whether the ThrowIf's result is used.
   */
  datatype Inst =
    | ThrowIf(id: nat, checked: Checked, hasUsers: bool)
    | StoreFrame(id: nat, variable: nat, canBeEmpty: bool)
    | StoreStack(id: nat, ptr: nat, canBeEmpty: bool)
    | Other(id: nat)

  /** A node of the dominator tree: the index of its block and its children, in visiting order. */
  datatype DomTree = DomNode(block: nat, children: seq<DomTree>)

  /** Every block named by the tree is a block of a function with `n` blocks. */
  predicate InFunction(t: DomTree, n: nat)
  {
    t.block < n && forall i :: 0 <= i < |t.children| ==> InFunction(t.children[i], n)
  }

  /** The storage a checked value is read from; a value that is not a load is its own storage. */
  function Storage(c: Checked): nat
  {
    match c
    case FrameLoad(_, v, _) => v
    case StackLoad(_, a, _) => a
    case OtherValue(x) => x
  }

  // ---------------------------------------------------------------------
  // Collecting the TDZ state

  /** `inst` is a ThrowIf checking a frame or stack load of `x`. */
  predicate FeedsThrowIf(inst: Inst, x: nat)
  {
    inst.ThrowIf? && !inst.checked.OtherValue? && Storage(inst.checked) == x
  }

  /** The storage whose loads feed a ThrowIf of the block. */
  function BlockTdz(insts: seq<Inst>): set<nat>
  {
    if insts == [] then {}
    else
      var n := |insts| - 1;
      BlockTdz(insts[..n]) + (if insts[n].ThrowIf? && !insts[n].checked.OtherValue? then {Storage(insts[n].checked)} else {})
  }

  /** The TDZ state of a function given as its blocks. */
  function TdzStorage(fn: seq<seq<Inst>>): set<nat>
  {
    if fn == [] then {}
    else TdzStorage(fn[..|fn| - 1]) + BlockTdz(fn[|fn| - 1])
  }

  lemma {:induction false} BlockTdzMeaning(insts: seq<Inst>, x: nat)
    ensures x in BlockTdz(insts) <==> exists i :: 0 <= i < |insts| && FeedsThrowIf(insts[i], x)
  {
    if insts != [] {
      var n := |insts| - 1;
      BlockTdzMeaning(insts[..n], x);
      if exists i :: 0 <= i < |insts| && FeedsThrowIf(insts[i], x) {
        var i :| 0 <= i < |insts| && FeedsThrowIf(insts[i], x);
        if i < n {
          assert insts[..n][i] == insts[i];
        }
      }
      if exists i :: 0 <= i < n && FeedsThrowIf(insts[..n][i], x) {
        var i :| 0 <= i < n && FeedsThrowIf(insts[..n][i], x);
        assert insts[i] == insts[..n][i];
      }
    }
  }

  /** The TDZ state is exactly the storage whose loads feed some ThrowIf of the function. */
  lemma {:induction false} TdzStorageMeaning(fn: seq<seq<Inst>>, x: nat)
    ensures x in TdzStorage(fn) <==> exists b, i :: 0 <= b < |fn| && 0 <= i < |fn[b]| && FeedsThrowIf(fn[b][i], x)
  {
    if fn != [] {
      var n := |fn| - 1;
      TdzStorageMeaning(fn[..n], x);
      BlockTdzMeaning(fn[n], x);
      if exists b, i :: 0 <= b < |fn| && 0 <= i < |fn[b]| && FeedsThrowIf(fn[b][i], x) {
        var b, i :| 0 <= b < |fn| && 0 <= i < |fn[b]| && FeedsThrowIf(fn[b][i], x);
        if b < n {
          assert fn[..n][b] == fn[b];
        }
      }
      if exists b, i :: 0 <= b < n && 0 <= i < |fn[..n][b]| && FeedsThrowIf(fn[..n][b][i], x) {
        var b, i :| 0 <= b < n && 0 <= i < |fn[..n][b]| && FeedsThrowIf(fn[..n][b][i], x);
        assert fn[b] == fn[..n][b];
      }
    }
  }

  // ---------------------------------------------------------------------
  // The scoped availability table

  /** The innermost scope's entry for `key`, or false (possibly empty) when no scope has one. */
  function LookupIn(scopes: seq<map<nat, bool>>, key: nat): bool
  {
    if scopes == [] then false
    else if key in scopes[|scopes| - 1] then scopes[|scopes| - 1][key]
    else LookupIn(scopes[..|scopes| - 1], key)
  }

  /** `scopes` with `key` set to `v` in the current (innermost) scope. */
  function SetTop(scopes: seq<map<nat, bool>>, key: nat, v: bool): (r: seq<map<nat, bool>>)
    requires scopes != []
    ensures |r| == |scopes| && r[..|r| - 1] == scopes[..|scopes| - 1]
  {
    scopes[..|scopes| - 1] + [scopes[|scopes| - 1][key := v]]
  }

  /** A value set in the current scope is what lookup finds; every other key is unaffected. */
  lemma LookupSetTop(scopes: seq<map<nat, bool>>, key: nat, v: bool, x: nat)
    requires scopes != []
    ensures LookupIn(SetTop(scopes, key, v), x) == if x == key then v else LookupIn(scopes, x)
  {
    var r := SetTop(scopes, key, v);
    assert r[..|r| - 1] == scopes[..|scopes| - 1];
  }

  /** Opening a new scope hides nothing. */
  lemma LookupPush(scopes: seq<map<nat, bool>>, x: nat)
    ensures LookupIn(scopes + [map[]], x) == LookupIn(scopes, x)
  {
    assert (scopes + [map[]])[..|scopes|] == scopes;
  }

  /** The scoped hash table from storage to "known to be non-empty". */
  class ScopedTable {
    var scopes: seq<map<nat, bool>>

    constructor()
      ensures scopes == []
    {
      scopes := [];
    }

    function Lookup(key: nat): bool
      reads this
    {
      LookupIn(scopes, key)
    }

    method Push()
      modifies this
      ensures scopes == old(scopes) + [map[]]
    {
      scopes := scopes + [map[]];
    }

    method Pop()
      requires scopes != []
      modifies this
      ensures scopes == old(scopes)[..|old(scopes)| - 1]
    {
      scopes := scopes[..|scopes| - 1];
    }

    method SetInCurrentScope(key: nat, v: bool)
      requires scopes != []
      modifies this
      ensures scopes == SetTop(old(scopes), key, v)
    {
      var n := |scopes| - 1;
      scopes := scopes[..n] + [scopes[n][key := v]];
    }
  }

  // ---------------------------------------------------------------------
  // processNode, one instruction at a time

  /** What processing a prefix of instructions has done: the table, and the edits in order. */
  datatype Step = Step(scopes: seq<map<nat, bool>>, destroyed: seq<nat>, narrowed: seq<nat>)

  /** The storage whose availability `inst` decides, if any. */
  function Target(tdz: set<nat>, inst: Inst): Option<nat>
  {
    match inst
    case ThrowIf(_, c, _) => Some(Storage(c))
    case StoreFrame(_, v, _) => if v in tdz then Some(v) else None
    case StoreStack(_, p, _) => if p in tdz then Some(p) else None
    case Other(_) => None
  }

  /** Whether `inst` leaves its target known to be non-empty. */
  predicate SetsNonEmpty(inst: Inst)
  {
    inst.ThrowIf? || ((inst.StoreFrame? || inst.StoreStack?) && !inst.canBeEmpty)
  }

  /** The instructions destroyed with a redundant ThrowIf: itself, then its load when nothing else uses it. */
  function Removed(id: nat, c: Checked, hasUsers: bool): (r: seq<nat>)
    ensures r != [] && r[0] == id
  {
    [id] + (if !hasUsers && !c.OtherValue? && c.oneUser then [c.load] else [])
  }

  /** A store to TDZ storage `x`: possibly empty makes it unavailable, otherwise it becomes available. */
  function StoreTo(scopes: seq<map<nat, bool>>, x: nat, canBeEmpty: bool): seq<map<nat, bool>>
    requires scopes != []
  {
    if canBeEmpty then SetTop(scopes, x, false)
    else if !LookupIn(scopes, x) then SetTop(scopes, x, true)
    else scopes
  }

  /** The loop body of processNode for one instruction. */
  function Process(tdz: set<nat>, scopes: seq<map<nat, bool>>, inst: Inst): (r: Step)
    requires scopes != []
    ensures |r.scopes| == |scopes| && r.scopes[..|scopes| - 1] == scopes[..|scopes| - 1]
    ensures Target(tdz, inst).None? ==> r.scopes == scopes
    ensures Target(tdz, inst).Some? ==>
      LookupIn(r.scopes, Target(tdz, inst).value) == SetsNonEmpty(inst) &&
      forall y :: y != Target(tdz, inst).value ==> LookupIn(r.scopes, y) == LookupIn(scopes, y)
    ensures r.destroyed != [] <==> inst.ThrowIf? && LookupIn(scopes, Storage(inst.checked))
    ensures r.destroyed == [] ==> r.narrowed == []
  {
    match inst
    case Other(_) => Step(scopes, [], [])
    case StoreFrame(_, v, e) =>
      if v !in tdz then Step(scopes, [], [])
      else
        forall y ensures LookupIn(StoreTo(scopes, v, e), y) == if y == v then !e else LookupIn(scopes, y) {
          LookupSetTop(scopes, v, !e, y);
        }
        Step(StoreTo(scopes, v, e), [], [])
    case StoreStack(_, p, e) =>
      if p !in tdz then Step(scopes, [], [])
      else
        forall y ensures LookupIn(StoreTo(scopes, p, e), y) == if y == p then !e else LookupIn(scopes, y) {
          LookupSetTop(scopes, p, !e, y);
        }
        Step(StoreTo(scopes, p, e), [], [])
    case ThrowIf(id, c, users) =>
      var x := Storage(c);
      if !LookupIn(scopes, x) then
        forall y ensures LookupIn(SetTop(scopes, x, true), y) == if y == x then true else LookupIn(scopes, y) {
          LookupSetTop(scopes, x, true, y);
        }
        Step(SetTop(scopes, x, true), [], [])
      else Step(scopes, Removed(id, c, users), if users then [id] else [])
  }

  /** processNode over a prefix of a block's instructions. */
  function BlockRun(tdz: set<nat>, scopes: seq<map<nat, bool>>, insts: seq<Inst>): (r: Step)
    requires scopes != []
    ensures |r.scopes| == |scopes| && r.scopes[..|scopes| - 1] == scopes[..|scopes| - 1]
  {
    if insts == [] then Step(scopes, [], [])
    else
      var n := |insts| - 1;
      var a := BlockRun(tdz, scopes, insts[..n]);
      var s := Process(tdz, a.scopes, insts[n]);
      Step(s.scopes, a.destroyed + s.destroyed, a.narrowed + s.narrowed)
  }

  lemma BlockRunSnoc(tdz: set<nat>, scopes: seq<map<nat, bool>>, insts: seq<Inst>, i: nat)
    requires scopes != [] && i < |insts|
    ensures var a := BlockRun(tdz, scopes, insts[..i]);
      var s := Process(tdz, a.scopes, insts[i]);
      BlockRun(tdz, scopes, insts[..i + 1]) == Step(s.scopes, a.destroyed + s.destroyed, a.narrowed + s.narrowed)
  {
    assert insts[..i + 1][..i] == insts[..i];
  }

  /** Appending one instruction's step to a run, as processNode's loop accumulates it. */
  lemma StepAppend(r: Step, a: Step, one: Step, d0: seq<nat>, n0: seq<nat>, d: seq<nat>, n: seq<nat>)
    requires r == Step(one.scopes, a.destroyed + one.destroyed, a.narrowed + one.narrowed)
    requires d == d0 + a.destroyed + one.destroyed && n == n0 + a.narrowed + one.narrowed
    ensures d == d0 + r.destroyed && n == n0 + r.narrowed
    ensures r.destroyed != [] <==> a.destroyed != [] || one.destroyed != []
  {
    assert d == d0 + (a.destroyed + one.destroyed);
    assert n == n0 + (a.narrowed + one.narrowed);
    assert |r.destroyed| == |a.destroyed| + |one.destroyed|;
  }

  /** Appending one subtree's walk to its siblings', as the children loop accumulates it. */
  lemma PairAppend(r: (seq<nat>, seq<nat>), a: (seq<nat>, seq<nat>), one: (seq<nat>, seq<nat>),
                   d0: seq<nat>, n0: seq<nat>, d: seq<nat>, n: seq<nat>)
    requires r == (a.0 + one.0, a.1 + one.1)
    requires d == d0 + a.0 + one.0 && n == n0 + a.1 + one.1
    ensures d == d0 + r.0 && n == n0 + r.1
    ensures r.0 != [] <==> a.0 != [] || one.0 != []
  {
    assert d == d0 + (a.0 + one.0);
    assert n == n0 + (a.1 + one.1);
    assert |r.0| == |a.0| + |one.0|;
  }

  /** The dominator-tree walk: a scope per node, its block, then its children, then the scope is popped. */
  function Walk(fn: seq<seq<Inst>>, tdz: set<nat>, scopes: seq<map<nat, bool>>, t: DomTree): (seq<nat>, seq<nat>)
    requires InFunction(t, |fn|)
    decreases t
  {
    var r := BlockRun(tdz, scopes + [map[]], fn[t.block]);
    var c := WalkAll(fn, tdz, r.scopes, t.children);
    (r.destroyed + c.0, r.narrowed + c.1)
  }

  /** Walks sibling subtrees in order, each starting from the same table. */
  function WalkAll(fn: seq<seq<Inst>>, tdz: set<nat>, scopes: seq<map<nat, bool>>, ts: seq<DomTree>): (seq<nat>, seq<nat>)
    requires forall i :: 0 <= i < |ts| ==> InFunction(ts[i], |fn|)
    decreases ts
  {
    if ts == [] then ([], [])
    else
      var a := WalkAll(fn, tdz, scopes, ts[..|ts| - 1]);
      var b := Walk(fn, tdz, scopes, ts[|ts| - 1]);
      (a.0 + b.0, a.1 + b.1)
  }

  lemma WalkAllSnoc(fn: seq<seq<Inst>>, tdz: set<nat>, scopes: seq<map<nat, bool>>, ts: seq<DomTree>, i: nat)
    requires forall k :: 0 <= k < |ts| ==> InFunction(ts[k], |fn|)
    requires i < |ts|
    ensures var a := WalkAll(fn, tdz, scopes, ts[..i]);
      var b := Walk(fn, tdz, scopes, ts[i]);
      WalkAll(fn, tdz, scopes, ts[..i + 1]) == (a.0 + b.0, a.1 + b.1)
  {
    assert ts[..i + 1][..i] == ts[..i];
  }

  // ---------------------------------------------------------------------
  // Reference: availability from the dominator path

  /** Whether `x` is known non-empty after the instructions `h` of the dominator path: the last one deciding it says so. */
  function Known(tdz: set<nat>, h: seq<Inst>, x: nat): bool
  {
    if h == [] then false
    else if Target(tdz, h[|h| - 1]) == Some(x) then SetsNonEmpty(h[|h| - 1])
    else Known(tdz, h[..|h| - 1], x)
  }

  /** `h[j]` makes `x` non-empty and nothing after it in `h` decides `x` again. */
  predicate LastSetAt(tdz: set<nat>, h: seq<Inst>, x: nat, j: int)
  {
    0 <= j < |h| && Target(tdz, h[j]) == Some(x) && SetsNonEmpty(h[j]) &&
    forall k :: j < k < |h| ==> Target(tdz, h[k]) != Some(x)
  }

  /** Storage is known non-empty exactly when a check or non-empty store of it is not followed by a possibly-empty store. */
  lemma {:induction false} KnownMeaning(tdz: set<nat>, h: seq<Inst>, x: nat)
    ensures Known(tdz, h, x) <==> exists j :: LastSetAt(tdz, h, x, j)
  {
    if h != [] {
      var n := |h| - 1;
      var p := h[..n];
      if Target(tdz, h[n]) == Some(x) {
        if SetsNonEmpty(h[n]) {
          assert LastSetAt(tdz, h, x, n);
        } else {
          forall j | 0 <= j < n ensures !LastSetAt(tdz, h, x, j) {
            assert Target(tdz, h[n]) == Some(x);
          }
          assert !LastSetAt(tdz, h, x, n);
        }
      } else {
        KnownMeaning(tdz, p, x);
        if Known(tdz, p, x) {
          var j :| LastSetAt(tdz, p, x, j);
          assert forall k :: j < k < n ==> h[k] == p[k];
          assert LastSetAt(tdz, h, x, j);
        }
        forall j | LastSetAt(tdz, h, x, j) ensures LastSetAt(tdz, p, x, j) {
          assert j != n;
          assert forall k :: j < k < n ==> h[k] == p[k];
        }
      }
    }
  }

  /** The edits `inst` causes after the dominator-path instructions `before`. */
  function RefDeletions(tdz: set<nat>, before: seq<Inst>, inst: Inst): (seq<nat>, seq<nat>)
  {
    if inst.ThrowIf? && Known(tdz, before, Storage(inst.checked)) then
      (Removed(inst.id, inst.checked, inst.hasUsers), if inst.hasUsers then [inst.id] else [])
    else ([], [])
  }

  /**
   * A ThrowIf is deleted exactly when, earlier on its dominator path, a check
   * or a non-empty store of the same storage is not followed by a
   * possibly-empty store; its users then go to a narrowing cast, or, when it
   * has none, its load goes too if that load has no other user.
   */
  lemma RedundantCheckRemoved(tdz: set<nat>, before: seq<Inst>, inst: Inst)
    requires inst.ThrowIf?
    ensures var d := RefDeletions(tdz, before, inst);
      (d.0 != [] <==> exists j :: LastSetAt(tdz, before, Storage(inst.checked), j)) &&
      (d.0 != [] ==>
         d.0[0] == inst.id &&
         (d.1 == [inst.id] <==> inst.hasUsers) &&
         (|d.0| == 2 <==> !inst.hasUsers && !inst.checked.OtherValue? && inst.checked.oneUser))
  {
    KnownMeaning(tdz, before, Storage(inst.checked));
  }

  function RefBlock(tdz: set<nat>, h: seq<Inst>, insts: seq<Inst>): (seq<nat>, seq<nat>)
  {
    if insts == [] then ([], [])
    else
      var n := |insts| - 1;
      var a := RefBlock(tdz, h, insts[..n]);
      var d := RefDeletions(tdz, h + insts[..n], insts[n]);
      (a.0 + d.0, a.1 + d.1)
  }

  function RefWalk(fn: seq<seq<Inst>>, tdz: set<nat>, h: seq<Inst>, t: DomTree): (seq<nat>, seq<nat>)
    requires InFunction(t, |fn|)
    decreases t
  {
    var r := RefBlock(tdz, h, fn[t.block]);
    var c := RefWalkAll(fn, tdz, h + fn[t.block], t.children);
    (r.0 + c.0, r.1 + c.1)
  }

  function RefWalkAll(fn: seq<seq<Inst>>, tdz: set<nat>, h: seq<Inst>, ts: seq<DomTree>): (seq<nat>, seq<nat>)
    requires forall i :: 0 <= i < |ts| ==> InFunction(ts[i], |fn|)
    decreases ts
  {
    if ts == [] then ([], [])
    else
      var a := RefWalkAll(fn, tdz, h, ts[..|ts| - 1]);
      var b := RefWalk(fn, tdz, h, ts[|ts| - 1]);
      (a.0 + b.0, a.1 + b.1)
  }

  // ---------------------------------------------------------------------
  // The scoped table implements the dominator-path reference

  /** The table answers every lookup as the dominator path `h` does. */
  ghost predicate Represents(scopes: seq<map<nat, bool>>, tdz: set<nat>, h: seq<Inst>)
  {
    forall x :: LookupIn(scopes, x) == Known(tdz, h, x)
  }

  lemma ProcessTracks(tdz: set<nat>, scopes: seq<map<nat, bool>>, h: seq<Inst>, inst: Inst)
    requires scopes != [] && Represents(scopes, tdz, h)
    ensures var r := Process(tdz, scopes, inst);
      Represents(r.scopes, tdz, h + [inst]) && (r.destroyed, r.narrowed) == RefDeletions(tdz, h, inst)
  {
    var h' := h + [inst];
    assert h'[..|h|] == h;
    var r := Process(tdz, scopes, inst);
    forall x ensures LookupIn(r.scopes, x) == Known(tdz, h', x) {
    }
  }

  lemma {:induction false} BlockTracks(tdz: set<nat>, scopes: seq<map<nat, bool>>, h: seq<Inst>, insts: seq<Inst>)
    requires scopes != [] && Represents(scopes, tdz, h)
    ensures var r := BlockRun(tdz, scopes, insts);
      Represents(r.scopes, tdz, h + insts) && (r.destroyed, r.narrowed) == RefBlock(tdz, h, insts)
  {
    if insts == [] {
      assert h + insts == h;
    } else {
      var n := |insts| - 1;
      BlockTracks(tdz, scopes, h, insts[..n]);
      var a := BlockRun(tdz, scopes, insts[..n]);
      ProcessTracks(tdz, a.scopes, h + insts[..n], insts[n]);
      assert (h + insts[..n]) + [insts[n]] == h + insts;
    }
  }

  /** The scoped-table walk deletes exactly what the dominator-path reference deletes. */
  lemma {:induction false} WalkMatches(fn: seq<seq<Inst>>, tdz: set<nat>, scopes: seq<map<nat, bool>>, h: seq<Inst>, t: DomTree)
    requires InFunction(t, |fn|) && Represents(scopes, tdz, h)
    ensures Walk(fn, tdz, scopes, t) == RefWalk(fn, tdz, h, t)
    decreases t
  {
    forall x ensures LookupIn(scopes + [map[]], x) == Known(tdz, h, x) {
      LookupPush(scopes, x);
    }
    BlockTracks(tdz, scopes + [map[]], h, fn[t.block]);
    var r := BlockRun(tdz, scopes + [map[]], fn[t.block]);
    WalkAllMatches(fn, tdz, r.scopes, h + fn[t.block], t.children);
  }

  lemma {:induction false} WalkAllMatches(fn: seq<seq<Inst>>, tdz: set<nat>, scopes: seq<map<nat, bool>>, h: seq<Inst>, ts: seq<DomTree>)
    requires forall i :: 0 <= i < |ts| ==> InFunction(ts[i], |fn|)
    requires Represents(scopes, tdz, h)
    ensures WalkAll(fn, tdz, scopes, ts) == RefWalkAll(fn, tdz, h, ts)
    decreases ts
  {
    if ts != [] {
      WalkAllMatches(fn, tdz, scopes, h, ts[..|ts| - 1]);
      WalkMatches(fn, tdz, scopes, h, ts[|ts| - 1]);
    }
  }

  /** The pass reports a change exactly when it deleted something. */
  lemma {:induction false} BlockRunChanged(tdz: set<nat>, scopes: seq<map<nat, bool>>, insts: seq<Inst>)
    requires scopes != []
    ensures BlockRun(tdz, scopes, insts).destroyed == [] ==> BlockRun(tdz, scopes, insts).narrowed == []
  {
    if insts != [] {
      BlockRunChanged(tdz, scopes, insts[..|insts| - 1]);
    }
  }

  // ---------------------------------------------------------------------
  // The pass

  class TdzDedupContext {
    const fn: seq<seq<Inst>>
    const tree: DomTree
    /** Every variable and stack slot whose loads feed a ThrowIf. */
    var tdzState: set<nat>
    const available: ScopedTable
    /** The instructions handed to the destroyer, in order. */
    var destroyed: seq<nat>
    /** The ThrowIfs whose users were redirected to a narrowing cast of the checked value. */
    var narrowed: seq<nat>

    constructor(fn: seq<seq<Inst>>, tree: DomTree)
      ensures this.fn == fn && this.tree == tree && tdzState == {}
      ensures fresh(available) && available.scopes == []
      ensures destroyed == [] && narrowed == []
    {
      this.fn := fn;
      this.tree := tree;
      tdzState := {};
      available := new ScopedTable();
      destroyed := [];
      narrowed := [];
    }

    /** Collects the TDZ state, then walks the dominator tree. */
    method Run() returns (changed: bool)
      requires InFunction(tree, |fn|)
      requires tdzState == {} && available.scopes == []
      modifies this, available
      ensures tdzState == TdzStorage(fn) && available.scopes == []
      ensures var w := Walk(fn, tdzState, [], tree);
        destroyed == old(destroyed) + w.0 && narrowed == old(narrowed) + w.1
      ensures changed <==> Walk(fn, tdzState, [], tree).0 != []
    {
      var b := 0;
      while b < |fn|
        invariant b <= |fn| && tdzState == TdzStorage(fn[..b])
        invariant destroyed == old(destroyed) && narrowed == old(narrowed) && available.scopes == []
      {
        var i := 0;
        while i < |fn[b]|
          invariant i <= |fn[b]| && tdzState == TdzStorage(fn[..b]) + BlockTdz(fn[b][..i])
          invariant destroyed == old(destroyed) && narrowed == old(narrowed) && available.scopes == []
        {
          assert fn[b][..i + 1][..i] == fn[b][..i];
          var inst := fn[b][i];
          if inst.ThrowIf? {
            match inst.checked
            case FrameLoad(_, v, _) => tdzState := tdzState + {v};
            case StackLoad(_, a, _) => tdzState := tdzState + {a};
            case OtherValue(_) =>
          }
          i := i + 1;
        }
        assert fn[b][..i] == fn[b];
        assert fn[..b + 1][..b] == fn[..b];
        b := b + 1;
      }
      assert fn[..b] == fn;
      changed := Visit(tree);
    }

    /** The depth-first walk of the dominator tree below `t`: a scope for the node, its block, its children, then the scope is popped. */
    method Visit(t: DomTree) returns (changed: bool)
      requires InFunction(t, |fn|)
      modifies this`destroyed, this`narrowed, available
      ensures available.scopes == old(available.scopes)
      ensures var w := Walk(fn, tdzState, old(available.scopes), t);
        destroyed == old(destroyed) + w.0 && narrowed == old(narrowed) + w.1
      ensures changed <==> Walk(fn, tdzState, old(available.scopes), t).0 != []
      decreases t, 1
    {
      ghost var s0 := available.scopes;
      ghost var d0 := destroyed;
      ghost var n0 := narrowed;
      available.Push();
      changed := ProcessNode(t.block);
      ghost var r := BlockRun(tdzState, s0 + [map[]], fn[t.block]);
      var c := VisitChildren(t);
      ghost var w := WalkAll(fn, tdzState, r.scopes, t.children);
      PairAppend(Walk(fn, tdzState, s0, t), (r.destroyed, r.narrowed), w, d0, n0, destroyed, narrowed);
      changed := changed || c;
      available.Pop();
      assert available.scopes == s0;
    }

    /** Visits the children of `t` in order, each from the same table. */
    method VisitChildren(t: DomTree) returns (changed: bool)
      requires InFunction(t, |fn|)
      modifies this`destroyed, this`narrowed, available
      ensures available.scopes == old(available.scopes)
      ensures var w := WalkAll(fn, tdzState, old(available.scopes), t.children);
        destroyed == old(destroyed) + w.0 && narrowed == old(narrowed) + w.1
      ensures changed <==> WalkAll(fn, tdzState, old(available.scopes), t.children).0 != []
      decreases t, 0
    {
      ghost var s0 := available.scopes;
      ghost var d0 := destroyed;
      ghost var n0 := narrowed;
      changed := false;
      var i := 0;
      while i < |t.children|
        invariant i <= |t.children| && available.scopes == s0
        invariant var w := WalkAll(fn, tdzState, s0, t.children[..i]);
          destroyed == d0 + w.0 && narrowed == n0 + w.1 && (changed <==> w.0 != [])
      {
        ghost var before := WalkAll(fn, tdzState, s0, t.children[..i]);
        ghost var one := Walk(fn, tdzState, s0, t.children[i]);
        var c := Visit(t.children[i]);
        WalkAllSnoc(fn, tdzState, s0, t.children, i);
        PairAppend(WalkAll(fn, tdzState, s0, t.children[..i + 1]), before, one, d0, n0, destroyed, narrowed);
        changed := changed || c;
        i := i + 1;
      }
      assert t.children[..i] == t.children;
    }

    /** processNode: runs the block's instructions against the current table. */
    method ProcessNode(b: nat) returns (changed: bool)
      requires b < |fn| && available.scopes != []
      modifies this`destroyed, this`narrowed, available
      ensures var r := BlockRun(tdzState, old(available.scopes), fn[b]);
        available.scopes == r.scopes && destroyed == old(destroyed) + r.destroyed && narrowed == old(narrowed) + r.narrowed
      ensures changed <==> BlockRun(tdzState, old(available.scopes), fn[b]).destroyed != []
    {
      ghost var s0 := available.scopes;
      ghost var d0 := destroyed;
      ghost var n0 := narrowed;
      changed := false;
      var i := 0;
      while i < |fn[b]|
        invariant i <= |fn[b]|
        invariant var r := BlockRun(tdzState, s0, fn[b][..i]);
          available.scopes == r.scopes && destroyed == d0 + r.destroyed && narrowed == n0 + r.narrowed &&
          (changed <==> r.destroyed != [])
      {
        ghost var a := BlockRun(tdzState, s0, fn[b][..i]);
        ghost var one := Process(tdzState, a.scopes, fn[b][i]);
        var deleted := ProcessInst(fn[b][i]);
        BlockRunSnoc(tdzState, s0, fn[b], i);
        StepAppend(BlockRun(tdzState, s0, fn[b][..i + 1]), a, one, d0, n0, destroyed, narrowed);
        changed := changed || deleted;
        i := i + 1;
      }
      assert fn[b][..i] == fn[b];
    }

    /** One iteration of processNode's loop. */
    method ProcessInst(inst: Inst) returns (deleted: bool)
      requires available.scopes != []
      modifies this`destroyed, this`narrowed, available
      ensures var r := Process(tdzState, old(available.scopes), inst);
        available.scopes == r.scopes && destroyed == old(destroyed) + r.destroyed && narrowed == old(narrowed) + r.narrowed
      ensures deleted <==> Process(tdzState, old(available.scopes), inst).destroyed != []
    {
      var storage: nat;
      if inst.ThrowIf? {
        storage := Storage(inst.checked);
      } else if inst.StoreFrame? || inst.StoreStack? {
        storage := if inst.StoreFrame? then inst.variable else inst.ptr;
        if storage !in tdzState {
          return false;
        }
        if inst.canBeEmpty {
          available.SetInCurrentScope(storage, false);
          return false;
        }
      } else {
        return false;
      }
      if !available.Lookup(storage) {
        available.SetInCurrentScope(storage, true);
        return false;
      }
      if !inst.ThrowIf? {
        return false;
      }
      destroyed := destroyed + [inst.id];
      deleted := true;
      if !inst.hasUsers {
        if !inst.checked.OtherValue? && inst.checked.oneUser {
          destroyed := destroyed + [inst.checked.load];
        }
      } else {
        narrowed := narrowed + [inst.id];
      }
    }
  }

  /**
   * runOnFunction: the pass deletes exactly the ThrowIfs (and loads) that the
   * dominator-path reference deletes, and reports a change exactly when it
   * deleted something.
   */
  method RunOnFunction(fn: seq<seq<Inst>>, tree: DomTree) returns (changed: bool, destroyed: seq<nat>, narrowed: seq<nat>)
    requires InFunction(tree, |fn|)
    ensures (destroyed, narrowed) == RefWalk(fn, TdzStorage(fn), [], tree)
    ensures changed <==> destroyed != []
  {
    var ctx := new TdzDedupContext(fn, tree);
    changed := ctx.Run();
    destroyed, narrowed := ctx.destroyed, ctx.narrowed;
    var w := Walk(fn, TdzStorage(fn), [], tree);
    assert destroyed == [] + w.0 && narrowed == [] + w.1;
    assert Represents([], TdzStorage(fn), []);
    WalkMatches(fn, TdzStorage(fn), [], [], tree);
    assert destroyed == w.0 && narrowed == w.1;
    assert (destroyed, narrowed) == w;
  }
}



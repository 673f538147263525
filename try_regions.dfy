/**
 * The innermost enclosing try of every block: the SurroundingTryBlockIterator
 * walk and its two clients, findEnclosingTrysPerBlock and fixupCatchTargets.
 * A try is named by the block whose terminator is its TryStart.
 */
module TryRegions {
  import opened Wrappers
  import opened Cfg

  /** A pending block and the innermost TryStart (named by its block) on entry to it. */
  datatype TryFrame = TryFrame(block: nat, enclosing: Option<nat>)

  function TryFrameBlocks(stack: seq<TryFrame>): set<nat>
  {
    if stack == [] then {} else TryFrameBlocks(stack[..|stack| - 1]) + {stack[|stack| - 1].block}
  }

  lemma TryFrameBlocksPop(stack: seq<TryFrame>)
    requires |stack| > 0
    ensures TryFrameBlocks(stack) == TryFrameBlocks(stack[..|stack| - 1]) + {stack[|stack| - 1].block}
  {
  }

  lemma {:induction false} TryFrameBlocksIndex(stack: seq<TryFrame>, b: nat)
    ensures b in TryFrameBlocks(stack) <==> exists i :: 0 <= i < |stack| && stack[i].block == b
    decreases |stack|
  {
    if stack != [] {
      var rest := stack[..|stack| - 1];
      TryFrameBlocksIndex(rest, b);
      if b in TryFrameBlocks(rest) {
        var i :| 0 <= i < |rest| && rest[i].block == b;
        assert stack[i].block == b;
      }
      if exists i :: 0 <= i < |stack| && stack[i].block == b {
        var i :| 0 <= i < |stack| && stack[i].block == b;
        if i < |rest| {
          assert rest[i].block == b;
        }
      }
    }
  }

  /**
   * The enclosing try after leaving `b` entered under `enc`: a TryEnd, or a
   * throw with a catch target, pops to the try enclosing the block of the
   * current one; any other terminator keeps it. (With no current try, or
   * none recorded for its block, the model keeps none.)
   */
  function PoppedTry(f: Function, b: nat, enc: Option<nat>, m: map<nat, Option<nat>>): (r: Option<nat>)
    requires b < |f|
    ensures r != enc ==> f[b].term.TryEnd? || f[b].term.Throw?
    ensures r == enc || r.None? || (enc.Some? && enc.value in m && r == m[enc.value])
  {
    if f[b].term.TryEnd? || (f[b].term.Throw? && f[b].term.throwTarget.Some?) then
      (if enc.Some? && enc.value in m then m[enc.value] else None)
    else enc
  }

  /** The enclosing try of successor `s` of `b`: the try body of a TryStart is enclosed by that TryStart. */
  function SuccessorTry(f: Function, b: nat, enc: Option<nat>, m: map<nat, Option<nat>>, s: nat): Option<nat>
    requires b < |f|
  {
    if f[b].term.TryStart? && s == f[b].term.tryBody then Some(b) else PoppedTry(f, b, enc, m)
  }

  /**
   * The try recorded for `b`. The invariants below quantify over this name
   * rather than over map lookups, so that a recorded try, itself a recorded
   * block, does not make the solver unfold the chain of enclosing trys.
   */
  function RecordedTry(m: map<nat, Option<nat>>, b: nat): Option<nat>
    requires b in m
  {
    m[b]
  }

  /** The block that first reached `s`, named for the same reason. */
  function ParentOf(parent: map<nat, nat>, s: nat): nat
    requires s in parent
  {
    parent[s]
  }

  /** Every recorded enclosing try is a recorded block ending in TryStart. */
  ghost predicate EnclosingAreTries(f: Function, m: map<nat, Option<nat>>)
  {
    forall b {:trigger RecordedTry(m, b)} :: b in m && RecordedTry(m, b).Some? ==>
      RecordedTry(m, b).value in m && RecordedTry(m, b).value < |f| && f[RecordedTry(m, b).value].term.TryStart?
  }

  /**
   * Every recorded block other than the entry was reached along an edge out
   * of a processed block, `parent[s]`, and its try is what that edge gives.
   */
  ghost predicate TryExplained(f: Function, m: map<nat, Option<nat>>, processed: set<nat>, parent: map<nat, nat>)
  {
    (forall s :: s in m && s != Entry ==> s in parent) &&
    (forall s {:trigger ParentOf(parent, s)} :: s in parent ==>
      var p := ParentOf(parent, s);
      s in m && p in processed && p in m && p < |f| && s in f[p].succs && m[s] == SuccessorTry(f, p, m[p], m, s))
  }

  /** The worklist holds unprocessed, distinct blocks with their recorded try. */
  ghost predicate TryStackEntries(stack: seq<TryFrame>, m: map<nat, Option<nat>>, processed: set<nat>)
  {
    (forall i :: 0 <= i < |stack| ==>
      stack[i].block !in processed && stack[i].block in m && m[stack[i].block] == stack[i].enclosing) &&
    (forall i, j :: 0 <= i < j < |stack| ==> stack[i].block != stack[j].block)
  }

  /** The successors of processed blocks (other than `current`) are recorded. */
  ghost predicate SuccessorsRecorded(f: Function, processed: set<nat>, m: map<nat, Option<nat>>, current: Option<nat>)
  {
    forall b, k {:trigger f[b].succs[k], b in processed} ::
      b in processed && Some(b) != current && b < |f| && 0 <= k < |f[b].succs| ==> f[b].succs[k] in m
  }

  /** The recorded blocks are the processed ones and the pending ones; all are blocks of `f`. */
  ghost predicate StackRecorded(f: Function, stack: seq<TryFrame>, m: map<nat, Option<nat>>, processed: set<nat>)
  {
    m.Keys == processed + TryFrameBlocks(stack) && (forall b :: b in m ==> b < |f|) &&
    TryStackEntries(stack, m, processed)
  }

  /** `hasTry` says whether some processed block ends in TryStart. */
  ghost predicate SawTry(f: Function, processed: set<nat>, hasTry: bool)
  {
    hasTry <==> exists b :: b in processed && b < |f| && f[b].term.TryStart?
  }

  /** The invariant of SurroundingTryBlockIterator, on values; `current` is the block whose successors are being recorded. */
  ghost predicate IterInv(f: Function, hasTry: bool, stack: seq<TryFrame>, m: map<nat, Option<nat>>,
                          processed: set<nat>, parent: map<nat, nat>, rank: map<nat, nat>, pushes: nat,
                          current: Option<nat>)
  {
    WellFormed(f) && Entry in m && m[Entry] == None &&
    StackRecorded(f, stack, m, processed) &&
    SuccessorsRecorded(f, processed, m, current) &&
    EnclosingAreTries(f, m) &&
    TryExplained(f, m, processed, parent) &&
    SawTry(f, processed, hasTry) &&
    Ranked(m, parent, rank, pushes) && |processed| <= |f|
  }

  /**
   * Blocks are numbered in the order they were recorded, below `pushes`;
   * the block that reached another was recorded before it. This is what
   * makes every recorded block reachable.
   */
  ghost predicate Ranked(m: map<nat, Option<nat>>, parent: map<nat, nat>, rank: map<nat, nat>, pushes: nat)
  {
    (forall x :: x in m ==> x in rank && rank[x] < pushes) &&
    (forall s {:trigger ParentOf(parent, s)} :: s in parent ==>
      s in rank && ParentOf(parent, s) in rank && rank[ParentOf(parent, s)] < rank[s])
  }

  /**
   * What a finished walk establishes about the map from block to enclosing
   * try: exactly the reachable blocks are recorded, the entry is outside any
   * try, every recorded try is a TryStart block, and every other block's try
   * follows from the edge that first reached it.
   */
  ghost predicate EnclosingTrysSpec(f: Function, m: map<nat, Option<nat>>, parent: map<nat, nat>)
  {
    (forall b :: b in m <==> Reachable(f, Entry, b)) &&
    Entry in m && m[Entry] == None &&
    EnclosingAreTries(f, m) &&
    TryExplained(f, m, m.Keys, parent)
  }

  /**
   * The walk's proof bookkeeping: the blocks processed so far, the block
   * that first reached each recorded block, the order blocks were recorded
   * in, and how many were.
   */
  datatype Walk = Walk(processed: set<nat>, parent: map<nat, nat>, rank: map<nat, nat>, pushes: nat)

  /**
   * The members of SurroundingTryBlockIterator that next updates: whether a
   * TryStart was seen, the worklist, the map from block to enclosing try,
   * and the current block with its enclosing try. They are kept in one
   * record so that next replaces them in one assignment.
   */
  datatype IterState = IterState(hasTry: bool, stack: seq<TryFrame>, blockToEnclosingTry: map<nat, Option<nat>>,
                                 bb: nat, enclosingTry: Option<nat>)

  /**
   * SurroundingTryBlockIterator: visits every reachable block once, in
   * worklist order, with the innermost TryStart enclosing it, and records
   * that try for every block it reaches.
   */
  class SurroundingTryBlockIterator {
    const f: Function
    var st: IterState
    ghost var walk: Walk

    ghost predicate Valid()
      reads this
    {
      IterInv(f, st.hasTry, st.stack, st.blockToEnclosingTry, walk.processed, walk.parent, walk.rank, walk.pushes, None)
    }

    /** Starts with the entry block on the worklist, recorded as outside any try. */
    constructor (f: Function)
      requires WellFormed(f)
      ensures Valid() && this.f == f && !st.hasTry
      ensures st.stack == [TryFrame(Entry, None)] && st.blockToEnclosingTry == map[Entry := None] && walk.processed == {}
    {
      this.f := f;
      st := IterState(false, [TryFrame(Entry, None)], map[Entry := None], Entry, None);
      walk := Walk({}, map[], map[Entry := 0], 1);
      new;
      assert TryFrameBlocks(st.stack) == {Entry} by {
        assert st.stack[0].block == Entry;
      }
    }

    /**
     * next: pops a block, makes it current with its enclosing try, and
     * records and pushes its successors not seen before. Returns false once
     * the worklist is empty.
     */
    method Next() returns (more: bool)
      requires Valid()
      modifies this
      ensures Valid()
      ensures more <==> old(st.stack) != []
      ensures !more ==> st == old(st) && walk == old(walk)
      ensures more ==> st.bb == old(st.stack)[|old(st.stack)| - 1].block && st.enclosingTry == old(st.stack)[|old(st.stack)| - 1].enclosing
      ensures more ==> st.bb !in old(walk.processed) && walk.processed == old(walk.processed) + {st.bb}
      ensures more ==> |walk.processed| == |old(walk.processed)| + 1
      ensures more ==> st.bb in st.blockToEnclosingTry && st.blockToEnclosingTry[st.bb] == st.enclosingTry
      ensures forall b :: b in old(st.blockToEnclosingTry) ==>
        b in st.blockToEnclosingTry && st.blockToEnclosingTry[b] == old(st.blockToEnclosingTry)[b]
    {
      if st.stack == [] {
        return false;
      }
      var bb, enclosingTry, hasTry, stack, blockToEnclosingTry, w :=
        Step(f, st.hasTry, st.stack, st.blockToEnclosingTry, walk);
      st := IterState(hasTry, stack, blockToEnclosingTry, bb, enclosingTry);
      walk := w;
      return true;
    }
  }

  /** One call of next on a non-empty worklist, on values. */
  method Step(f: Function, hasTry: bool, stack: seq<TryFrame>, m: map<nat, Option<nat>>, ghost w: Walk)
    returns (bb: nat, enclosingTry: Option<nat>, hasTry': bool, stack': seq<TryFrame>, m': map<nat, Option<nat>>,
             ghost w': Walk)
    requires stack != [] && IterInv(f, hasTry, stack, m, w.processed, w.parent, w.rank, w.pushes, None)
    ensures IterInv(f, hasTry', stack', m', w'.processed, w'.parent, w'.rank, w'.pushes, None)
    ensures bb == stack[|stack| - 1].block && enclosingTry == stack[|stack| - 1].enclosing
    ensures bb !in w.processed && w'.processed == w.processed + {bb} && |w'.processed| == |w.processed| + 1
    ensures bb in m' && m'[bb] == enclosingTry
    ensures forall b :: b in m ==> b in m' && m'[b] == m[b]
  {
    var top := stack[|stack| - 1];
    TryPop(f, hasTry, stack, m, w.processed, w.parent, w.rank, w.pushes);
    bb := top.block;
    enclosingTry := top.enclosing;
    stack' := stack[..|stack| - 1];
    ghost var processed' := w.processed + {bb};
    CardAddOne(w.processed, bb);
    var tryBody, enc := LeaveBlock(f, bb, enclosingTry, m);
    hasTry' := hasTry || tryBody.Some?;
    ghost var parent', rank', pushes';
    stack', m', parent', rank', pushes' :=
      RecordSuccessors(f, hasTry', bb, tryBody, enc, stack', m, processed', w.parent, w.rank, w.pushes);
    w' := Walk(processed', parent', rank', pushes');
  }

  /** The try body a TryStart enters, and the enclosing try the other successors of `bb` get. */
  method LeaveBlock(f: Function, bb: nat, enclosingTry: Option<nat>, m: map<nat, Option<nat>>)
    returns (tryBody: Option<nat>, enc: Option<nat>)
    requires bb < |f|
    ensures tryBody == if f[bb].term.TryStart? then Some(f[bb].term.tryBody) else None
    ensures enc == PoppedTry(f, bb, enclosingTry, m)
  {
    tryBody := None;
    enc := enclosingTry;
    match f[bb].term {
      case TryStart(body, _) =>
        tryBody := Some(body);
      case TryEnd(_) =>
        enc := if enc.Some? && enc.value in m then m[enc.value] else None;
      case Throw(target) =>
        if target.Some? {
          enc := if enc.Some? && enc.value in m then m[enc.value] else None;
        }
      case _ =>
    }
  }

  /** Records every successor of `bb` not seen before with the try it enters under, and pushes it. */
  method RecordSuccessors(f: Function, hasTry: bool, bb: nat, tryBody: Option<nat>, enc: Option<nat>,
                          stack: seq<TryFrame>, m: map<nat, Option<nat>>, ghost processed: set<nat>,
                          ghost parent: map<nat, nat>, ghost rank: map<nat, nat>, ghost pushes: nat)
    returns (stack': seq<TryFrame>, m': map<nat, Option<nat>>, ghost parent': map<nat, nat>,
             ghost rank': map<nat, nat>, ghost pushes': nat)
    requires IterInv(f, hasTry, stack, m, processed, parent, rank, pushes, Some(bb))
    requires bb in processed && bb < |f| && bb in m
    requires tryBody == if f[bb].term.TryStart? then Some(f[bb].term.tryBody) else None
    requires enc == PoppedTry(f, bb, m[bb], m)
    ensures IterInv(f, hasTry, stack', m', processed, parent', rank', pushes', None)
    ensures forall b :: b in m ==> b in m' && m'[b] == m[b]
  {
    var succs := f[bb].succs;
    stack', m', parent', rank', pushes' := stack, m, parent, rank, pushes;
    var i := 0;
    while i < |succs|
      invariant 0 <= i <= |succs|
      invariant IterInv(f, hasTry, stack', m', processed, parent', rank', pushes', Some(bb))
      invariant bb in m' && enc == PoppedTry(f, bb, m'[bb], m')
      invariant forall b :: b in m ==> b in m' && m'[b] == m[b]
      invariant forall k :: 0 <= k < i ==> succs[k] in m'
    {
      ghost var m0 := m';
      stack', m', parent', rank', pushes' :=
        RecordSuccessor(f, hasTry, bb, tryBody, enc, succs[i], stack', m', processed, parent', rank', pushes');
      SeenKept(succs, i, m0, m');
      i := i + 1;
    }
    SuccessorsComplete(f, bb, processed, m');
  }

  /** The successors recorded so far stay recorded once one more is added. */
  lemma SeenKept(succs: seq<nat>, i: nat, m0: map<nat, Option<nat>>, m: map<nat, Option<nat>>)
    requires i < |succs| && succs[i] in m
    requires forall k :: 0 <= k < i ==> succs[k] in m0
    requires forall b :: b in m0 ==> b in m && m[b] == m0[b]
    ensures forall k :: 0 <= k < i + 1 ==> succs[k] in m
  {
  }

  /** Records successor `s` of `bb` with the try it enters under and pushes it, unless it was seen before. */
  method RecordSuccessor(f: Function, hasTry: bool, bb: nat, tryBody: Option<nat>, enc: Option<nat>, s: nat,
                         stack: seq<TryFrame>, m: map<nat, Option<nat>>, ghost processed: set<nat>,
                         ghost parent: map<nat, nat>, ghost rank: map<nat, nat>, ghost pushes: nat)
    returns (stack': seq<TryFrame>, m': map<nat, Option<nat>>, ghost parent': map<nat, nat>,
             ghost rank': map<nat, nat>, ghost pushes': nat)
    requires IterInv(f, hasTry, stack, m, processed, parent, rank, pushes, Some(bb))
    requires bb in processed && bb < |f| && bb in m && s in f[bb].succs
    requires tryBody == if f[bb].term.TryStart? then Some(f[bb].term.tryBody) else None
    requires enc == PoppedTry(f, bb, m[bb], m)
    ensures IterInv(f, hasTry, stack', m', processed, parent', rank', pushes', Some(bb))
    ensures s in m' && (forall b :: b in m ==> b in m' && m'[b] == m[b])
    ensures enc == PoppedTry(f, bb, m'[bb], m')
  {
    stack', m', parent', rank', pushes' := stack, m, parent, rank, pushes;
    if s !in m {
      var succEnclosingTry := if tryBody == Some(s) then Some(bb) else enc;
      TryPush(f, hasTry, stack, m, processed, parent, rank, pushes, bb, s, succEnclosingTry);
      parent', rank', pushes' := parent[s := bb], rank[s := pushes], pushes + 1;
      m' := m[s := succEnclosingTry];
      stack' := stack + [TryFrame(s, succEnclosingTry)];
      PoppedTryFrame(f, bb, m, m');
    }
  }

  /** Once every successor of `bb` is recorded, `bb` needs no exemption. */
  lemma SuccessorsComplete(f: Function, bb: nat, processed: set<nat>, m: map<nat, Option<nat>>)
    requires bb < |f| && SuccessorsRecorded(f, processed, m, Some(bb))
    requires forall x :: x in f[bb].succs ==> x in m
    ensures SuccessorsRecorded(f, processed, m, None)
  {
  }

  lemma TryPopStack(f: Function, stack: seq<TryFrame>, m: map<nat, Option<nat>>, processed: set<nat>)
    requires |stack| > 0 && StackRecorded(f, stack, m, processed)
    ensures StackRecorded(f, stack[..|stack| - 1], m, processed + {stack[|stack| - 1].block})
  {
    var rest := stack[..|stack| - 1];
    TryFrameBlocksPop(stack);
    assert forall i :: 0 <= i < |rest| ==> rest[i] == stack[i];
  }

  /** Processing `b` exempts it until its successors are recorded. */
  lemma PopSuccessors(f: Function, processed: set<nat>, m: map<nat, Option<nat>>, b: nat)
    requires SuccessorsRecorded(f, processed, m, None)
    ensures SuccessorsRecorded(f, processed + {b}, m, Some(b))
  {
  }

  lemma PopSawTry(f: Function, processed: set<nat>, hasTry: bool, b: nat)
    requires SawTry(f, processed, hasTry) && b < |f|
    ensures SawTry(f, processed + {b}, hasTry || f[b].term.TryStart?)
  {
    if f[b].term.TryStart? {
      assert b in processed + {b};
    }
  }

  lemma ExplainedGrow(f: Function, m: map<nat, Option<nat>>, processed: set<nat>, processed': set<nat>,
                      parent: map<nat, nat>)
    requires TryExplained(f, m, processed, parent) && processed <= processed'
    ensures TryExplained(f, m, processed', parent)
  {
    forall s | s in parent
      ensures var p := ParentOf(parent, s);
        s in m && p in processed' && p in m && p < |f| && s in f[p].succs && m[s] == SuccessorTry(f, p, m[p], m, s)
    {
      assert ParentOf(parent, s) in processed;
    }
  }

  /** Popping the top frame makes its block the current, processed one. */
  lemma TryPop(f: Function, hasTry: bool, stack: seq<TryFrame>, m: map<nat, Option<nat>>,
               processed: set<nat>, parent: map<nat, nat>, rank: map<nat, nat>, pushes: nat)
    requires |stack| > 0 && IterInv(f, hasTry, stack, m, processed, parent, rank, pushes, None)
    ensures var top := stack[|stack| - 1];
      top.block !in processed && top.block in m && m[top.block] == top.enclosing && top.block < |f| &&
      IterInv(f, hasTry || f[top.block].term.TryStart?, stack[..|stack| - 1], m, processed + {top.block},
              parent, rank, pushes, Some(top.block))
  {
    var top := stack[|stack| - 1];
    assert top.block in TryFrameBlocks(stack) by {
      TryFrameBlocksPop(stack);
    }
    TryPopStack(f, stack, m, processed);
    PopSuccessors(f, processed, m, top.block);
    PopSawTry(f, processed, hasTry, top.block);
    ExplainedGrow(f, m, processed, processed + {top.block}, parent);
    CardBelow(processed + {top.block}, |f|);
  }

  /** Recording and pushing an unseen successor of the current block keeps the invariant. */
  lemma TryPush(f: Function, hasTry: bool, stack: seq<TryFrame>, m: map<nat, Option<nat>>,
                processed: set<nat>, parent: map<nat, nat>, rank: map<nat, nat>, pushes: nat,
                bb: nat, s: nat, se: Option<nat>)
    requires IterInv(f, hasTry, stack, m, processed, parent, rank, pushes, Some(bb))
    requires bb in processed && bb < |f| && bb in m && s in f[bb].succs && s !in m
    requires se == SuccessorTry(f, bb, m[bb], m, s)
    ensures IterInv(f, hasTry, stack + [TryFrame(s, se)], m[s := se], processed, parent[s := bb],
                    rank[s := pushes], pushes + 1, Some(bb))
  {
    TryPushStack(f, stack, m, processed, s, se);
    SuccessorsGrow(f, processed, m, m[s := se], Some(bb));
    TryPushTries(f, m, bb, s, se);
    TryPushExplained(f, m, processed, parent, bb, s, se);
    TryPushRanked(f, m, processed, parent, rank, pushes, bb, s, se);
  }

  lemma TryPushStack(f: Function, stack: seq<TryFrame>, m: map<nat, Option<nat>>, processed: set<nat>,
                     s: nat, se: Option<nat>)
    requires StackRecorded(f, stack, m, processed) && s !in m && s < |f|
    ensures StackRecorded(f, stack + [TryFrame(s, se)], m[s := se], processed)
  {
    TryPushKeys(stack, m, processed, s, se);
    TryPushEntries(stack, m, processed, s, se);
  }

  lemma TryPushKeys(stack: seq<TryFrame>, m: map<nat, Option<nat>>, processed: set<nat>, s: nat, se: Option<nat>)
    requires m.Keys == processed + TryFrameBlocks(stack)
    ensures m[s := se].Keys == processed + TryFrameBlocks(stack + [TryFrame(s, se)])
  {
    var stack' := stack + [TryFrame(s, se)];
    TryFrameBlocksPop(stack');
    assert stack'[..|stack'| - 1] == stack;
  }

  lemma TryPushEntries(stack: seq<TryFrame>, m: map<nat, Option<nat>>, processed: set<nat>, s: nat, se: Option<nat>)
    requires m.Keys == processed + TryFrameBlocks(stack) && TryStackEntries(stack, m, processed) && s !in m
    ensures TryStackEntries(stack + [TryFrame(s, se)], m[s := se], processed)
  {
    var stack' := stack + [TryFrame(s, se)];
    assert forall i :: 0 <= i < |stack| ==> stack'[i] == stack[i];
    forall i, j | 0 <= i < j < |stack'|
      ensures stack'[i].block != stack'[j].block
    {
      if j == |stack'| - 1 {
        TryFrameBlocksIndex(stack, stack[i].block);
      }
    }
  }

  /** Recording more blocks keeps the successors of processed blocks recorded. */
  lemma SuccessorsGrow(f: Function, processed: set<nat>, m: map<nat, Option<nat>>, m': map<nat, Option<nat>>,
                       current: Option<nat>)
    requires SuccessorsRecorded(f, processed, m, current) && m.Keys <= m'.Keys
    ensures SuccessorsRecorded(f, processed, m', current)
  {
  }

  lemma TryPushTries(f: Function, m: map<nat, Option<nat>>, bb: nat, s: nat, se: Option<nat>)
    requires WellFormed(f) && EnclosingAreTries(f, m)
    requires bb < |f| && bb in m && s !in m && se == SuccessorTry(f, bb, m[bb], m, s)
    ensures EnclosingAreTries(f, m[s := se])
  {
    var m' := m[s := se];
    forall b | b in m' && RecordedTry(m', b).Some?
      ensures RecordedTry(m', b).value in m' && RecordedTry(m', b).value < |f| && f[RecordedTry(m', b).value].term.TryStart?
    {
      if b == s {
        if !(f[bb].term.TryStart? && s == f[bb].term.tryBody) {
          assert se == PoppedTry(f, bb, m[bb], m);
          if f[bb].term.TryEnd? || (f[bb].term.Throw? && f[bb].term.throwTarget.Some?) {
            assert RecordedTry(m, bb).Some? && m[bb].value in m;
            assert se == RecordedTry(m, m[bb].value);
          } else {
            assert se == RecordedTry(m, bb);
          }
        }
      } else {
        assert RecordedTry(m', b) == RecordedTry(m, b);
      }
    }
  }

  lemma TryPushExplained(f: Function, m: map<nat, Option<nat>>, processed: set<nat>, parent: map<nat, nat>,
                         bb: nat, s: nat, se: Option<nat>)
    requires EnclosingAreTries(f, m) && TryExplained(f, m, processed, parent) && Entry in m
    requires bb in processed && bb < |f| && bb in m && s in f[bb].succs && s !in m
    requires se == SuccessorTry(f, bb, m[bb], m, s)
    ensures TryExplained(f, m[s := se], processed, parent[s := bb])
  {
    var m', p' := m[s := se], parent[s := bb];
    PoppedTryFrame(f, bb, m, m');
    forall x | x in p'
      ensures var b := ParentOf(p', x);
        x in m' && b in processed && b in m' && b < |f| && x in f[b].succs && m'[x] == SuccessorTry(f, b, m'[b], m', x)
    {
      if x != s {
        var b := ParentOf(parent, x);
        assert b in m && x in m;
        PoppedTryFrame(f, b, m, m');
      }
    }
  }

  lemma TryPushRanked(f: Function, m: map<nat, Option<nat>>, processed: set<nat>, parent: map<nat, nat>,
                      rank: map<nat, nat>, pushes: nat, bb: nat, s: nat, se: Option<nat>)
    requires Ranked(m, parent, rank, pushes) && TryExplained(f, m, processed, parent) && bb in m && s !in m
    ensures Ranked(m[s := se], parent[s := bb], rank[s := pushes], pushes + 1)
  {
    var p', r' := parent[s := bb], rank[s := pushes];
    forall x | x in p'
      ensures x in r' && ParentOf(p', x) in r' && r'[ParentOf(p', x)] < r'[x]
    {
      if x != s {
        var b := ParentOf(parent, x);
        assert x in m && b in rank && b != s;
      }
    }
  }

  /** Growing the map does not change the try a recorded block pops to. */
  lemma PoppedTryFrame(f: Function, b: nat, m: map<nat, Option<nat>>, m': map<nat, Option<nat>>)
    requires b < |f| && b in m && EnclosingAreTries(f, m)
    requires forall x :: x in m ==> x in m' && m'[x] == m[x]
    ensures PoppedTry(f, b, m[b], m') == PoppedTry(f, b, m[b], m)
    ensures forall s :: SuccessorTry(f, b, m[b], m', s) == SuccessorTry(f, b, m[b], m, s)
  {
    if RecordedTry(m, b).Some? {
      assert m[b].value in m;
    }
  }

  /** Following recorded parents back from a recorded block reaches the entry along successor edges. */
  lemma {:induction false} RecordedReachable(f: Function, m: map<nat, Option<nat>>, processed: set<nat>,
                                             parent: map<nat, nat>, rank: map<nat, nat>, pushes: nat, x: nat)
    requires WellFormed(f) && (forall b :: b in m ==> b < |f|)
    requires TryExplained(f, m, processed, parent) && Ranked(m, parent, rank, pushes) && x in m
    ensures Reachable(f, Entry, x)
    decreases rank[x]
  {
    if x == Entry {
      assert IsPathFrom(f, Entry, [Entry]) && Last([Entry]) == Entry;
    } else {
      var b := ParentOf(parent, x);
      RecordedReachable(f, m, processed, parent, rank, pushes, b);
      var p :| IsPathFrom(f, Entry, p) && Last(p) == b;
      ExtendPath(f, Entry, p, x);
    }
  }

  /** A finished walk meets the specification, and a try was seen iff a reachable block ends in TryStart. */
  lemma FinishedIteration(f: Function, hasTry: bool, m: map<nat, Option<nat>>,
                          processed: set<nat>, parent: map<nat, nat>, rank: map<nat, nat>, pushes: nat)
    requires IterInv(f, hasTry, [], m, processed, parent, rank, pushes, None)
    ensures EnclosingTrysSpec(f, m, parent) && m.Keys == processed
    ensures hasTry <==> exists b: nat :: Reachable(f, Entry, b) && b < |f| && f[b].term.TryStart?
  {
    assert TryFrameBlocks([]) == {};
    assert ClosedUnderSuccessors(f, m.Keys);
    forall b
      ensures b in m <==> Reachable(f, Entry, b)
    {
      if Reachable(f, Entry, b) {
        ClosedContainsReachable(f, Entry, m.Keys, b);
      }
      if b in m {
        RecordedReachable(f, m, processed, parent, rank, pushes, b);
      }
    }
  }

  /**
   * findEnclosingTrysPerBlock: runs the iterator to the end and returns the
   * map from block to innermost enclosing try, or None when no reachable
   * block ends in TryStart.
   */
  method FindEnclosingTrysPerBlock(f: Function) returns (r: Option<map<nat, Option<nat>>>, ghost parent: map<nat, nat>)
    requires WellFormed(f)
    ensures r.None? <==> forall b: nat :: Reachable(f, Entry, b) && b < |f| ==> !f[b].term.TryStart?
    ensures r.Some? ==> EnclosingTrysSpec(f, r.value, parent)
  {
    var it := new SurroundingTryBlockIterator(f);
    var more := it.Next();
    while more
      invariant it.Valid() && it.f == f && (!more ==> it.st.stack == [])
      decreases |f| - |it.walk.processed|, more
    {
      more := it.Next();
    }
    FinishedIteration(f, it.st.hasTry, it.st.blockToEnclosingTry, it.walk.processed, it.walk.parent, it.walk.rank, it.walk.pushes);
    parent := it.walk.parent;
    if it.st.hasTry {
      r := Some(it.st.blockToEnclosingTry);
    } else {
      r := None;
    }
  }

  /** The catch block of an enclosing try, or none outside any try. */
  function CatchOf(f: Function, enc: Option<nat>): Option<nat>
  {
    if enc.Some? && enc.value < |f| && f[enc.value].term.TryStart? then Some(f[enc.value].term.catchTarget) else None
  }

  /** The successors of a throw: its catch target, if it has one. */
  function ThrowSuccs(target: Option<nat>): (r: seq<nat>)
    ensures |r| <= 1 && (r == [] <==> target.None?)
    ensures target.Some? ==> r == [target.value]
  {
    if target.Some? then [target.value] else []
  }

  /** A throw with its catch target set to `target`; its successors follow the target. */
  function Retargeted(blk: Block, target: Option<nat>): Block
  {
    blk.(term := Throw(target), succs := ThrowSuccs(target))
  }

  /**
   * Block `b` once fixed up: a throw among `done` gets the catch block of its
   * enclosing try per `m`, and that catch block as its only successor.
   */
  function FixedBlock(f: Function, m: map<nat, Option<nat>>, done: set<nat>, b: nat): (r: Block)
    requires b < |f|
    ensures r.startsWithCatch == f[b].startsWithCatch
    ensures r.term.Throw? <==> f[b].term.Throw?
    ensures r != f[b] ==> b in done && b in m && r.term == Throw(CatchOf(f, m[b])) && r.succs == ThrowSuccs(r.term.throwTarget)
  {
    if b in done && b in m && f[b].term.Throw? then Retargeted(f[b], CatchOf(f, m[b])) else f[b]
  }

  /** `f` with the catch target of every throw in `done` set from its enclosing try per `m`. */
  function FixedTargets(f: Function, m: map<nat, Option<nat>>, done: set<nat>): (g: Function)
    ensures |g| == |f|
    ensures forall b :: 0 <= b < |f| && (b !in done || !f[b].term.Throw?) ==> g[b] == f[b]
  {
    seq(|f|, b requires 0 <= b < |f| => FixedBlock(f, m, done, b))
  }

  /** Some throw among `done` had a catch target other than the one its enclosing try gives. */
  ghost predicate ChangedIn(f: Function, m: map<nat, Option<nat>>, done: set<nat>)
  {
    exists b :: b in done && b in m && b < |f| && f[b].term.Throw? && f[b].term.throwTarget != CatchOf(f, m[b])
  }

  /** Fixed-up blocks, block by block. */
  ghost predicate FixedSoFar(f: Function, m: map<nat, Option<nat>>, done: set<nat>, g: Function)
  {
    |g| == |f| && forall b :: 0 <= b < |f| ==> g[b] == FixedBlock(f, m, done, b)
  }

  /**
   * Fixing up one more block `b` of the function `g` fixed so far: the
   * targets and the change flag extend by that block, whatever else the
   * walk records meanwhile.
   */
  lemma FixedTargetsStep(f: Function, m: map<nat, Option<nat>>, m': map<nat, Option<nat>>, done: set<nat>, b: nat,
                         g: Function, changed: bool)
    requires b !in done && b < |f| && b in m && forall x :: x in done ==> x in m
    requires forall x :: x in m ==> x in m' && m'[x] == m[x]
    requires FixedSoFar(f, m, done, g) && (changed <==> ChangedIn(f, m, done))
    ensures g[b] == f[b]
    ensures FixedSoFar(f, m', done + {b},
      if g[b].term.Throw? then g[b := Retargeted(g[b], CatchOf(f, m[b]))] else g)
    ensures ChangedIn(f, m', done + {b}) <==>
      changed || (g[b].term.Throw? && g[b].term.throwTarget != CatchOf(f, m[b]))
  {
    var g' := if g[b].term.Throw? then g[b := Retargeted(g[b], CatchOf(f, m[b]))] else g;
    forall x | 0 <= x < |f|
      ensures g'[x] == FixedBlock(f, m', done + {b}, x)
    {
      if x != b && x in done {
        assert m'[x] == m[x];
      }
    }
    if ChangedIn(f, m', done + {b}) {
      var x :| x in done + {b} && x in m' && x < |f| && f[x].term.Throw? && f[x].term.throwTarget != CatchOf(f, m'[x]);
      if x != b {
        assert x in done && x in m && m'[x] == m[x];
      }
    }
    if ChangedIn(f, m, done) {
      var x :| x in done && x in m && x < |f| && f[x].term.Throw? && f[x].term.throwTarget != CatchOf(f, m[x]);
      assert x in done + {b} && x in m' && m'[x] == m[x];
    }
    if f[b].term.Throw? && f[b].term.throwTarget != CatchOf(f, m[b]) {
      assert b in done + {b} && b in m' && m'[b] == m[b];
    }
  }

  /** Block by block fixed-up is the fixed-up function. */
  lemma FixedSoFarIsFixed(f: Function, m: map<nat, Option<nat>>, done: set<nat>, g: Function)
    requires FixedSoFar(f, m, done, g)
    ensures g == FixedTargets(f, m, done)
  {
  }

  /**
   * The fixed-up function is well formed, and every throw the fix-up
   * visited has its catch target as its only successor.
   */
  lemma FixedTargetsWellFormed(f: Function, m: map<nat, Option<nat>>, done: set<nat>)
    requires WellFormed(f)
    ensures WellFormed(FixedTargets(f, m, done))
    ensures forall b :: 0 <= b < |f| && b in done && b in m && f[b].term.Throw? ==>
      FixedTargets(f, m, done)[b].succs == ThrowSuccs(FixedTargets(f, m, done)[b].term.throwTarget)
  {
    var g := FixedTargets(f, m, done);
    forall b, x | 0 <= b < |g| && x in g[b].succs
      ensures x < |g|
    {
      if g[b] != f[b] {
        var c := CatchOf(f, m[b]);
        assert c.Some? && x == c.value;
        var e := m[b].value;
        assert f[e].term.catchTarget in f[e].succs;
      }
    }
  }

  /**
   * fixupCatchTargets: every reachable throw gets the catch block of its
   * innermost enclosing try as its catch target and only successor, or none
   * outside any try; nothing else changes, and the function stays well
   * formed. The result says whether any target changed.
   */
  method FixupCatchTargets(f: Function) returns (g: Function, changed: bool,
                                                ghost m: map<nat, Option<nat>>, ghost parent: map<nat, nat>)
    requires WellFormed(f)
    ensures EnclosingTrysSpec(f, m, parent)
    ensures g == FixedTargets(f, m, m.Keys)
    ensures WellFormed(g)
    ensures forall b :: 0 <= b < |f| && b in m && f[b].term.Throw? ==> g[b].succs == ThrowSuccs(g[b].term.throwTarget)
    ensures changed <==> ChangedIn(f, m, m.Keys)
  {
    var it := new SurroundingTryBlockIterator(f);
    g := f;
    changed := false;
    ghost var done: set<nat> := {};
    var more := it.Next();
    assert FixedSoFar(f, it.st.blockToEnclosingTry, {}, g);
    while more
      invariant it.Valid() && it.f == f
      invariant !more ==> it.st.stack == [] && it.walk.processed == done
      invariant more ==> (it.st.bb !in done && it.walk.processed == done + {it.st.bb} &&
        it.st.bb in it.st.blockToEnclosingTry && it.st.blockToEnclosingTry[it.st.bb] == it.st.enclosingTry)
      invariant forall b :: b in done ==> b in it.st.blockToEnclosingTry
      invariant FixedSoFar(f, it.st.blockToEnclosingTry, done, g)
      invariant changed <==> ChangedIn(f, it.st.blockToEnclosingTry, done)
      decreases |f| - |it.walk.processed|, more
    {
      var b := it.st.bb;
      var enclosingTry := it.st.enclosingTry;
      ghost var m0, g0, changed0 := it.st.blockToEnclosingTry, g, changed;
      if g[b].term.Throw? {
        var target := CatchOf(f, enclosingTry);
        if g[b].term.throwTarget != target {
          changed := true;
        }
        g := g[b := Retargeted(g[b], target)];
      }
      more := it.Next();
      FixedTargetsStep(f, m0, it.st.blockToEnclosingTry, done, b, g0, changed0);
      done := done + {b};
    }
    FinishedIteration(f, it.st.hasTry, it.st.blockToEnclosingTry, it.walk.processed, it.walk.parent, it.walk.rank, it.walk.pushes);
    m, parent := it.st.blockToEnclosingTry, it.walk.parent;
    FixedSoFarIsFixed(f, m, m.Keys, g);
    FixedTargetsWellFormed(f, m, m.Keys);
  }
}
